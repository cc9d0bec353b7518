/**
 The wlan0 metric refresh: save the interface's rows, then delete and re-add each row whose
 metric differs from the target, then clear the list.  Delete commands cannot tell rows with the
 same device, net and mask apart, so the effect is worked out one such group at a time.
 */
module MetricRefresh {
  import opened Seqs
  import opened Routes
  import opened RouteTheorems

  function Refreshed(iface: string, t: seq<Row>, met: int): seq<Row> {
    ExecAll(t, UpdateCommands(Snapshot(iface, t), met))
  }

  function HasKey(k: Key): Row -> bool { (r: Row) => KeyOf(r) == k }

  function EntryHasKey(k: Key): Entry -> bool { (e: Entry) => Key(e.name, e.net, e.mask) == k }

  function Group(t: seq<Row>, k: Key): seq<Row> { Filter(HasKey(k), t) }

  predicate AllAt(rows: seq<Row>, met: int) { forall i :: 0 <= i < |rows| ==> rows[i].metric == met }

  function LastOff(rows: seq<Row>, met: int): (r: Row)
    requires !AllAt(rows, met)
    ensures r in rows && r.metric != met
  {
    if rows[|rows| - 1].metric != met then rows[|rows| - 1] else LastOff(rows[..|rows| - 1], met)
  }

  // ---------- one group ----------

  /** What the commands for the entries `es` of one group do to the rows `g` of that group. */
  function GroupAfter(g: seq<Row>, es: seq<Entry>, met: int): seq<Row>
    decreases es
  {
    if es == [] then g
    else if es[0].metric == met then GroupAfter(g, es[1..], met)
    else GroupAfter([Readded(es[0]).(metric := met)] + (if g == [] then [] else g[1..]), es[1..], met)
  }

  lemma {:induction false} GroupAfterRemove(t: seq<Row>, k': Key, k: Key)
    ensures Group(RemoveFirst(t, k'), k)
         == if k == k' && Group(t, k) != [] then Group(t, k)[1..] else Group(t, k)
  {
    if t != [] {
      var tail := t[1..];
      if KeyOf(t[0]) != k' {
        GroupAfterRemove(tail, k', k);
        var r := [t[0]] + RemoveFirst(tail, k');
        assert r[1..] == RemoveFirst(tail, k');
      }
    }
  }

  /** One entry's delete and re-add, seen from the group of key `k`. */
  lemma GroupAfterEntry(t: seq<Row>, e: Entry, met: int, k: Key)
    ensures var t' := Exec(Exec(t, DelOf(e)), AddOf(e, Some(met)));
            Group(t', k) == if !EntryHasKey(k)(e) then Group(t, k)
              else [Readded(e).(metric := met)] + if Group(t, k) == [] then [] else Group(t, k)[1..]
  {
    var u := Exec(t, DelOf(e));
    GroupAfterRemove(t, Key(e.name, e.net, e.mask), k);
    var t' := Exec(u, AddOf(e, Some(met)));
    assert t' == [Readded(e).(metric := met)] + u && t'[1..] == u;
  }

  lemma {:induction false} GroupAfterCommands(t: seq<Row>, es: seq<Entry>, met: int, k: Key)
    ensures Group(ExecAll(t, UpdateCommands(es, met)), k)
         == GroupAfter(Group(t, k), Filter(EntryHasKey(k), es), met)
    decreases es
  {
    if es != [] {
      var e, tail := es[0], es[1..];
      var cs, own := UpdateCommands(tail, met), Filter(EntryHasKey(k), tail);
      if e.metric == met {
        GroupAfterCommands(t, tail, met, k);
        assert [] + cs == cs;
        assert EntryHasKey(k)(e) ==> ([e] + own)[1..] == own;
      } else {
        var t' := Exec(Exec(t, DelOf(e)), AddOf(e, Some(met)));
        TwoCommands(t, DelOf(e), AddOf(e, Some(met)), cs);
        GroupAfterEntry(t, e, met, k);
        GroupAfterCommands(t', tail, met, k);
        assert EntryHasKey(k)(e) ==> ([e] + own)[1..] == own;
      }
    }
  }

  lemma TwoCommands(t: seq<Row>, c: Command, d: Command, cs: seq<Command>)
    ensures ExecAll(t, [c, d] + cs) == ExecAll(Exec(Exec(t, c), d), cs)
  {
    assert ([c, d] + cs)[1..] == [d] + cs && ([d] + cs)[1..] == cs;
  }

  /** Only the first row of a group is ever replaced; the last off-metric entry wins. */
  lemma {:induction false} GroupAfterClosed(g: seq<Row>, rows: seq<Row>, met: int)
    requires g != []
    ensures GroupAfter(g, Map(EntryOf, rows), met)
         == if AllAt(rows, met) then g else [LastOff(rows, met).(metric := met)] + g[1..]
    decreases rows
  {
    if rows != [] {
      var r, tail := rows[0], rows[1..];
      assert Map(EntryOf, rows)[1..] == Map(EntryOf, tail);
      LastOffTail(rows, met);
      if r.metric == met {
        GroupAfterClosed(g, tail, met);
      } else {
        var g' := [r.(metric := met)] + g[1..];
        GroupAfterClosed(g', tail, met);
        assert g'[1..] == g[1..];
      }
    }
  }

  lemma {:induction false} LastOffTail(rows: seq<Row>, met: int)
    requires rows != []
    ensures AllAt(rows, met) <==> rows[0].metric == met && AllAt(rows[1..], met)
    ensures !AllAt(rows[1..], met) ==> !AllAt(rows, met) && LastOff(rows, met) == LastOff(rows[1..], met)
    ensures AllAt(rows[1..], met) && rows[0].metric != met ==> LastOff(rows, met) == rows[0]
    decreases |rows|
  {
    var tail := rows[1..];
    assert AllAt(rows, met) <==> rows[0].metric == met && AllAt(tail, met) by {
      assert forall i :: 0 <= i < |tail| ==> tail[i] == rows[i + 1];
      assert forall i :: 0 < i < |rows| ==> rows[i] == tail[i - 1];
    }
    if |rows| > 1 {
      var front := rows[..|rows| - 1];
      assert front[1..] == tail[..|tail| - 1];
      assert tail[|tail| - 1] == rows[|rows| - 1];
      LastOffTail(front, met);
      if tail[|tail| - 1].metric == met {
        assert AllAt(tail, met) <==> AllAt(tail[..|tail| - 1], met);
      }
    }
  }

  lemma GroupOfSnapshot(iface: string, t: seq<Row>, k: Key)
    requires Matches(iface, k.dev)
    ensures Filter(EntryHasKey(k), Snapshot(iface, t)) == Map(EntryOf, Group(t, k))
  {
    FilterMapped(EntryHasKey(k), HasKey(k), EntryOf, Select(iface, t));
    FilterFilter(HasKey(k), RowOf(iface), t);
  }

  /** The complete effect of a refresh on the rows sharing one key. */
  lemma RefreshedGroup(iface: string, t: seq<Row>, met: int, k: Key)
    ensures var g := Group(t, k);
            Group(Refreshed(iface, t, met), k)
            == if !Matches(iface, k.dev) || AllAt(g, met) then g
               else [LastOff(g, met).(metric := met)] + g[1..]
  {
    if Matches(iface, k.dev) {
      GroupAfterCommands(t, Snapshot(iface, t), met, k);
      GroupOfSnapshot(iface, t, k);
      if Group(t, k) != [] {
        GroupAfterClosed(Group(t, k), Group(t, k), met);
      }
    } else {
      RefreshKeepsOthers(iface, t, met);
      FilterFilter(HasKey(k), NotRowOf(iface), t);
      FilterFilter(HasKey(k), NotRowOf(iface), Refreshed(iface, t, met));
    }
  }

  lemma RefreshKeepsOthers(iface: string, t: seq<Row>, met: int)
    ensures Others(iface, Refreshed(iface, t, met)) == Others(iface, t)
  {
    var es := Snapshot(iface, t);
    SnapshotMatches(iface, t);
    CommandsAreAbout(iface, es, met);
    CommandsKeepOthers(iface, t, UpdateCommands(es, met));
  }

  // ---------- the whole table ----------

  predicate AtMetric(iface: string, t: seq<Row>, met: int) {
    forall i :: 0 <= i < |t| && Matches(iface, t[i].dev) ==> t[i].metric == met
  }

  /** Below another row with its key, every row of the interface already has the metric. */
  predicate OnlyFirstsOff(iface: string, t: seq<Row>, met: int) {
    forall i, j :: 0 <= i < j < |t| && KeyOf(t[i]) == KeyOf(t[j]) && Matches(iface, t[j].dev)
      ==> t[j].metric == met
  }

  predicate KeysDistinct(iface: string, t: seq<Row>) {
    forall i, j :: 0 <= i < j < |t| && Matches(iface, t[i].dev) ==> KeyOf(t[i]) != KeyOf(t[j])
  }

  lemma AtMetricByGroup(iface: string, t: seq<Row>, met: int)
    ensures AtMetric(iface, t, met) <==> forall k: Key :: Matches(iface, k.dev) ==> AllAt(Group(t, k), met)
  {
    if AtMetric(iface, t, met) {
      forall k: Key | Matches(iface, k.dev) ensures AllAt(Group(t, k), met) {
        FilterAll(HasKey(k), t);
        forall i | 0 <= i < |Group(t, k)| ensures Group(t, k)[i].metric == met {
          assert Group(t, k)[i] in t && HasKey(k)(Group(t, k)[i]);
        }
      }
    } else {
      var i :| 0 <= i < |t| && Matches(iface, t[i].dev) && t[i].metric != met;
      var k := KeyOf(t[i]);
      FilterAll(HasKey(k), t);
      assert t[i] in t && HasKey(k)(t[i]);
      var j :| 0 <= j < |Group(t, k)| && Group(t, k)[j] == t[i];
      assert !AllAt(Group(t, k), met);
    }
  }

  predicate PairsAt(t: seq<Row>, k: Key, met: int) {
    forall i, j :: 0 <= i < j < |t| && KeyOf(t[i]) == k && KeyOf(t[j]) == k ==> t[j].metric == met
  }

  lemma {:induction false} GroupTail(t: seq<Row>, k: Key, met: int)
    ensures PairsAt(t, k, met) <==> Group(t, k) == [] || AllAt(Group(t, k)[1..], met)
  {
    if t != [] {
      var tail := t[1..];
      GroupTail(tail, k, met);
      assert forall i :: 0 <= i < |tail| ==> tail[i] == t[i + 1];
      if KeyOf(t[0]) == k {
        var g := Group(tail, k);
        assert Group(t, k)[1..] == g;
        FilterAll(HasKey(k), tail);
        if AllAt(g, met) {
          forall j | 0 < j < |t| && KeyOf(t[j]) == k ensures t[j].metric == met {
            assert t[j] == tail[j - 1] && HasKey(k)(t[j]) && t[j] in g;
          }
        } else {
          var i :| 0 <= i < |g| && g[i].metric != met;
          assert g[i] in tail && HasKey(k)(g[i]);
          var j :| 0 <= j < |tail| && tail[j] == g[i];
          assert t[j + 1].metric != met;
        }
      } else {
        PairsTail(t, k, met);
      }
    }
  }

  lemma {:induction false} PairsTail(t: seq<Row>, k: Key, met: int)
    requires t != [] && KeyOf(t[0]) != k
    ensures PairsAt(t, k, met) <==> PairsAt(t[1..], k, met)
  {
    var tail := t[1..];
    if !PairsAt(tail, k, met) {
      var i, j :| 0 <= i < j < |tail| && KeyOf(tail[i]) == k && KeyOf(tail[j]) == k && tail[j].metric != met;
      assert t[i + 1] == tail[i] && t[j + 1] == tail[j];
    }
    if !PairsAt(t, k, met) {
      var i, j :| 0 <= i < j < |t| && KeyOf(t[i]) == k && KeyOf(t[j]) == k && t[j].metric != met;
      assert t[i] == tail[i - 1] && t[j] == tail[j - 1];
    }
  }

  /**
   A refresh brings every row of the interface to the metric exactly when, before it, only rows
   that are the first of their key were off it.
   */
  lemma RefreshReachesMetricIff(iface: string, t: seq<Row>, met: int)
    ensures AtMetric(iface, Refreshed(iface, t, met), met) <==> OnlyFirstsOff(iface, t, met)
  {
    var u := Refreshed(iface, t, met);
    AtMetricByGroup(iface, u, met);
    forall k: Key | Matches(iface, k.dev)
      ensures AllAt(Group(u, k), met) <==> PairsAt(t, k, met)
    {
      RefreshedGroup(iface, t, met, k);
      GroupTail(t, k, met);
      var g := Group(t, k);
      if g != [] {
        LastOffTail(g, met);
        if !AllAt(g, met) {
          LastOffTail(Group(u, k), met);
          assert Group(u, k)[1..] == g[1..];
        }
      }
    }
    OnlyFirstsByKey(iface, t, met);
  }

  lemma OnlyFirstsByKey(iface: string, t: seq<Row>, met: int)
    ensures OnlyFirstsOff(iface, t, met) <==> forall k: Key :: Matches(iface, k.dev) ==> PairsAt(t, k, met)
  {
    if !OnlyFirstsOff(iface, t, met) {
      var i, j :| 0 <= i < j < |t| && KeyOf(t[i]) == KeyOf(t[j]) && Matches(iface, t[j].dev)
                  && t[j].metric != met;
      assert !PairsAt(t, KeyOf(t[j]), met);
    }
  }

  /** Where a group is touched at all, its last off-metric row goes through the first row's gateway. */
  predicate GatewaysAgree(iface: string, t: seq<Row>, met: int) {
    forall i :: 0 <= i < |t| && Matches(iface, t[i].dev) ==>
      var g := Group(t, KeyOf(t[i]));
      AllAt(g, met) || (g != [] && LastOff(g, met).gw == g[0].gw)
  }

  lemma {:induction false} PathCount(t: seq<Row>, p: Path)
    ensures multiset(Paths(t))[p] == multiset(Paths(Group(t, p.key)))[p]
  {
    if t != [] {
      var tail := t[1..];
      PathCount(tail, p);
      if KeyOf(t[0]) == p.key {
        MapAppend(PathOf, [t[0]], Group(tail, p.key));
      }
    }
  }

  /**
   A refresh conserves the multiset of (device, net, gateway, mask) exactly when the gateways agree.
   */
  lemma RefreshConservesPathsIff(iface: string, t: seq<Row>, met: int)
    ensures multiset(Paths(Refreshed(iface, t, met))) == multiset(Paths(t)) <==> GatewaysAgree(iface, t, met)
  {
    var u := Refreshed(iface, t, met);
    if GatewaysAgree(iface, t, met) {
      forall p: Path ensures multiset(Paths(u))[p] == multiset(Paths(t))[p] {
        AgreeingGroup(iface, t, met, p);
      }
    } else {
      var i :| 0 <= i < |t| && Matches(iface, t[i].dev) &&
        var g := Group(t, KeyOf(t[i])); !(AllAt(g, met) || (g != [] && LastOff(g, met).gw == g[0].gw));
      DisagreeingGroup(iface, t, met, KeyOf(t[i]));
    }
  }

  lemma PathsOfReplaced(x: Row, g: seq<Row>)
    requires g != []
    ensures multiset(Paths([x] + g[1..])) == multiset{PathOf(x)} + multiset(Paths(g[1..]))
    ensures multiset(Paths(g)) == multiset{PathOf(g[0])} + multiset(Paths(g[1..]))
  {
    MapAppend(PathOf, [x], g[1..]);
  }

  lemma AgreeingGroup(iface: string, t: seq<Row>, met: int, p: Path)
    requires GatewaysAgree(iface, t, met)
    ensures multiset(Paths(Refreshed(iface, t, met)))[p] == multiset(Paths(t))[p]
  {
    var u, g := Refreshed(iface, t, met), Group(t, p.key);
    PathCount(t, p);
    PathCount(u, p);
    RefreshedGroup(iface, t, met, p.key);
    if Matches(iface, p.key.dev) && !AllAt(g, met) {
      FilterAll(HasKey(p.key), t);
      var x := LastOff(g, met);
      assert HasKey(p.key)(x) && HasKey(p.key)(g[0]) && g[0] in g;
      var i :| 0 <= i < |t| && t[i] == g[0];
      assert Group(t, KeyOf(t[i])) == g;
      PathsOfReplaced(x.(metric := met), g);
    }
  }

  lemma DisagreeingGroup(iface: string, t: seq<Row>, met: int, k: Key)
    requires Matches(iface, k.dev) && !AllAt(Group(t, k), met)
    requires LastOff(Group(t, k), met).gw != Group(t, k)[0].gw
    ensures multiset(Paths(Refreshed(iface, t, met))) != multiset(Paths(t))
  {
    var u, g := Refreshed(iface, t, met), Group(t, k);
    var x := LastOff(g, met);
    FilterAll(HasKey(k), t);
    assert HasKey(k)(g[0]) by { assert g[0] in g; }
    var p := PathOf(g[0]);
    PathCount(t, p);
    PathCount(u, p);
    RefreshedGroup(iface, t, met, k);
    PathsOfReplaced(x.(metric := met), g);
  }

  lemma {:induction false} SilentIff(iface: string, t: seq<Row>, met: int)
    ensures UpdateCommands(Snapshot(iface, t), met) == [] <==> AtMetric(iface, t, met)
  {
    if t != [] {
      var tail := t[1..];
      SilentIff(iface, tail, met);
      assert AtMetric(iface, t, met) <==>
          (Matches(iface, t[0].dev) ==> t[0].metric == met) && AtMetric(iface, tail, met) by {
        assert forall i :: 0 <= i < |tail| ==> tail[i] == t[i + 1];
        assert forall i :: 0 < i < |t| ==> t[i] == tail[i - 1];
      }
      if Matches(iface, t[0].dev) {
        MapAppend(EntryOf, [t[0]], Select(iface, tail));
        assert Snapshot(iface, t)[1..] == Snapshot(iface, tail);
      }
    }
  }

  /**
   On a table whose keys are distinct a refresh reaches the metric everywhere, keeps every route
   and every other device's rows, and the next refresh issues no command.
   */
  lemma RefreshOnDistinctKeys(iface: string, t: seq<Row>, met: int)
    requires KeysDistinct(iface, t)
    ensures var u := Refreshed(iface, t, met);
            && AtMetric(iface, u, met)
            && multiset(Paths(u)) == multiset(Paths(t))
            && Others(iface, u) == Others(iface, t)
            && UpdateCommands(Snapshot(iface, u), met) == []
  {
    var u := Refreshed(iface, t, met);
    RefreshReachesMetricIff(iface, t, met);
    SilentIff(iface, u, met);
    RefreshKeepsOthers(iface, t, met);
    forall i | 0 <= i < |t| && Matches(iface, t[i].dev)
      ensures var g := Group(t, KeyOf(t[i]));
              AllAt(g, met) || (g != [] && LastOff(g, met).gw == g[0].gw)
    {
      var k := KeyOf(t[i]);
      GroupIsSingle(t, i);
      var g := Group(t, k);
      assert g == [t[i]];
    }
    RefreshConservesPathsIff(iface, t, met);
  }

  lemma GroupIsSingle(t: seq<Row>, i: nat)
    requires i < |t|
    requires forall j :: 0 <= j < |t| && j != i ==> KeyOf(t[j]) != KeyOf(t[i])
    ensures Group(t, KeyOf(t[i])) == [t[i]]
  {
    var p := HasKey(KeyOf(t[i]));
    FilterSplit(p, t, i + 1);
    FilterPrefix(p, t, i);
    FilterAll(p, t[..i]);
    FilterAll(p, t[i + 1..]);
  }

  // ---------- where it fails ----------

  function Twice(iface: string, gw: Addr, gw': Addr): seq<Row> {
    [Row(iface, 1, gw, 2, 0), Row(iface, 1, gw', 2, 0)]
  }

  /** Of two rows of one key, both off the metric, one stays off it. */
  lemma SharedKeyStaysOff(iface: string, gw: Addr, gw': Addr)
    ensures !AtMetric(iface, Refreshed(iface, Twice(iface, gw, gw'), 20), 20)
  {
    var t := Twice(iface, gw, gw');
    assert KeyOf(t[0]) == KeyOf(t[1]) && t[1].metric != 20;
    RefreshReachesMetricIff(iface, t, 20);
  }

  /** If they also have different gateways, the route of the first one is lost. */
  lemma SharedKeyLosesRoute(iface: string, gw: Addr, gw': Addr)
    requires gw != gw'
    ensures multiset(Paths(Refreshed(iface, Twice(iface, gw, gw'), 20))) != multiset(Paths(Twice(iface, gw, gw')))
  {
    var t := Twice(iface, gw, gw');
    var k := KeyOf(t[0]);
    assert t[1..][1..] == [];
    assert Group(t, k) == t by { FilterAll(HasKey(k), t); }
    RefreshConservesPathsIff(iface, t, 20);
    assert LastOff(t, 20) == t[1] by {
      LastOffTail(t, 20);
      LastOffTail(t[1..], 20);
    }
  }
}
