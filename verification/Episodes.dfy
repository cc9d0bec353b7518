/**
 What an OFF episode of eth0 takes from the route table and what it brings back, and on which
 observations the two agree.
 */
module Episodes {
  import opened Seqs
  import opened Routes
  import opened RouteTheorems
  import opened NetIf
  import opened NetIfRuns

  // ---------- taken and brought back ----------

  /** The routes of table `a` that table `b` lacks, counted. */
  function Lacking(a: seq<Row>, b: seq<Row>): multiset<Path> { multiset(Paths(a)) - multiset(Paths(b)) }

  function EntryPath(e: Entry): Path { PathOf(Readded(e)) }

  lemma {:induction false} PathsOfEntries(es: seq<Entry>)
    ensures Paths(Map(Readded, es)) == Map(EntryPath, es)
  {
    if es != [] {
      PathsOfEntries(es[1..]);
    }
  }

  lemma {:induction false} MultisetAppend<T>(a: seq<T>, b: seq<T>)
    ensures multiset(a + b) == multiset(a) + multiset(b)
    ensures multiset(a + b) - multiset(b) == multiset(a)
  {
  }

  lemma Brought(u: seq<Row>, es: seq<Entry>)
    ensures Lacking(ExecAll(u, AddCommands(es)), u) == multiset(Map(EntryPath, es))
  {
    UpPrepends(u, es);
    MapAppend(PathOf, Map(Readded, es), u);
    PathsOfEntries(es);
    MultisetAppend(Map(EntryPath, es), Paths(u));
  }

  lemma PathsCons(r: Row, rows: seq<Row>)
    ensures multiset(Paths([r] + rows)) == multiset{PathOf(r)} + multiset(Paths(rows))
  {
    assert ([r] + rows)[1..] == rows;
    MultisetAppend([PathOf(r)], Paths(rows));
  }

  lemma {:induction false} PathsSplit(iface: string, t: seq<Row>)
    ensures multiset(Paths(t)) == multiset(Paths(Select(iface, t))) + multiset(Paths(Others(iface, t)))
  {
    hide Paths;
    if t == [] {
      NoPaths();
    } else {
      var r, tail := t[0], t[1..];
      assert t == [r] + tail;
      PathsSplit(iface, tail);
      PathsCons(r, tail);
      if Matches(iface, r.dev) {
        PathsCons(r, Select(iface, tail));
      } else {
        PathsCons(r, Others(iface, tail));
      }
    }
  }

  lemma NoPaths()
    ensures Paths([]) == []
  {
  }

  lemma {:induction false} RemoveFirstTakes(t: seq<Row>, k: Key)
    ensures multiset(Paths(RemoveFirst(t, k))) <= multiset(Paths(t))
  {
    hide Paths;
    if t != [] {
      var r, tail := t[0], t[1..];
      assert t == [r] + tail;
      PathsCons(r, tail);
      if KeyOf(r) != k {
        RemoveFirstTakes(tail, k);
        PathsCons(r, RemoveFirst(tail, k));
      }
    }
  }

  lemma {:induction false} DeletesTake(t: seq<Row>, es: seq<Entry>)
    ensures multiset(Paths(ExecAll(t, DelCommands(es)))) <= multiset(Paths(t))
    decreases es
  {
    if es != [] {
      var e := es[0];
      RemoveFirstTakes(t, Key(e.name, e.net, e.mask));
      DeletesTake(Exec(t, DelOf(e)), es[1..]);
    }
  }

  lemma {:induction false} CancelCommon<T>(s: multiset<T>, s': multiset<T>, o: multiset<T>)
    requires s' + o <= s + o
    ensures s' <= s && (s + o) - (s' + o) == s - s' && |s - s'| == |s| - |s'|
  {
    forall x | x in s' ensures s'[x] <= s[x] {
      assert (s' + o)[x] <= (s + o)[x];
    }
    assert s == (s - s') + s';
  }

  /** Deletes about an interface take some of its routes and no others. */
  lemma Taken(iface: string, t: seq<Row>, es: seq<Entry>)
    requires forall e :: e in es ==> Matches(iface, e.name)
    ensures var v := ExecAll(t, DelCommands(es));
            var s, s' := multiset(Paths(Select(iface, t))), multiset(Paths(Select(iface, v)));
            s' <= s && Lacking(t, v) == s - s' && |Lacking(t, v)| == |s| - |s'|
  {
    var v := ExecAll(t, DelCommands(es));
    CommandsAreAbout(iface, es, 0);
    CommandsKeepOthers(iface, t, DelCommands(es));
    DeletesTake(t, es);
    PathsSplit(iface, t);
    PathsSplit(iface, v);
    var s, s' := multiset(Paths(Select(iface, t))), multiset(Paths(Select(iface, v)));
    CancelCommon(s, s', multiset(Paths(Others(iface, t))));
  }

  // ---------- name lengths ----------

  function NameLengths(ps: seq<Path>): nat {
    if ps == [] then 0 else |ps[0].key.dev| + NameLengths(ps[1..])
  }

  lemma {:induction false} NameLengthsAppend(a: seq<Path>, b: seq<Path>)
    ensures NameLengths(a + b) == NameLengths(a) + NameLengths(b)
  {
    if a == [] {
      assert a + b == b;
    } else {
      assert (a + b)[1..] == a[1..] + b;
      NameLengthsAppend(a[1..], b);
    }
  }

  lemma WithoutAt(b: seq<Path>, i: nat)
    requires i < |b|
    ensures multiset(b) == multiset{b[i]} + multiset(b[..i] + b[i + 1..])
    ensures NameLengths(b) == |b[i].key.dev| + NameLengths(b[..i] + b[i + 1..])
  {
    var front, back := b[..i], b[i + 1..];
    assert b == (front + [b[i]]) + back;
    MultisetAppend(front + [b[i]], back);
    MultisetAppend(front, [b[i]]);
    MultisetAppend(front, back);
    NameLengthsAppend(front + [b[i]], back);
    NameLengthsAppend(front, [b[i]]);
    NameLengthsAppend(front, back);
  }

  lemma WithoutFirst(a: seq<Path>)
    requires a != []
    ensures multiset(a) == multiset{a[0]} + multiset(a[1..])
    ensures NameLengths(a) == |a[0].key.dev| + NameLengths(a[1..])
  {
    assert a[..0] + a[1..] == a[1..];
    WithoutAt(a, 0);
  }

  /** Without one common element, equal multisets of paths stay equal. */
  lemma RestSame(x: Path, a: multiset<Path>, a': multiset<Path>, b: multiset<Path>, b': multiset<Path>)
    requires a == b && a == multiset{x} + a' && b == multiset{x} + b'
    ensures a' == b'
  {
    CancelOne(x, a', b');
  }

  lemma {:induction false} CancelOne<T>(x: T, m: multiset<T>, n: multiset<T>)
    requires multiset{x} + m == multiset{x} + n
    ensures m == n
  {
    assert (multiset{x} + m) - multiset{x} == m;
    assert (multiset{x} + n) - multiset{x} == n;
  }

  lemma {:induction false} SameNameLengths(a: seq<Path>, b: seq<Path>)
    requires multiset(a) == multiset(b)
    ensures NameLengths(a) == NameLengths(b)
    decreases |a|
  {
    hide NameLengths;
    if a == [] {
      NoElements(b);
    } else {
      assert a[0] in multiset(a);
      var i := Find(b, a[0]);
      var b' := b[..i] + b[i + 1..];
      WithoutFirst(a);
      WithoutAt(b, i);
      RestSame(a[0], multiset(a), multiset(a[1..]), multiset(b), multiset(b'));
      SameNameLengths(a[1..], b');
    }
  }

  lemma {:induction false} NoElements<T>(b: seq<T>)
    requires multiset(b) == multiset{}
    ensures b == []
  {
    assert |multiset(b)| == |b|;
  }

  lemma {:induction false} Find<T>(b: seq<T>, x: T) returns (i: nat)
    requires x in multiset(b)
    ensures i < |b| && b[i] == x
  {
    i :| 0 <= i < |b| && b[i] == x;
  }

  /** A save never shortens a name, and keeps all of them if and only if no kept name is longer. */
  lemma {:induction false} StoredNameLengths(rows: seq<Row>, list: seq<Entry>)
    requires |rows| <= |list|
    ensures var a, b := NameLengths(Map(EntryPath, Stored(rows, list)[..|rows|])), NameLengths(Paths(rows));
            a >= b && (a == b <==> forall i :: 0 <= i < |rows| ==> |list[i].name| <= |rows[i].dev|)
  {
    var s := Stored(rows, list)[..|rows|];
    if rows != [] {
      StoredNameLengths(rows[1..], list[1..]);
      assert s[1..] == Stored(rows[1..], list[1..])[..|rows| - 1];
      assert Map(EntryPath, s)[1..] == Map(EntryPath, s[1..]);
      assert Paths(rows)[1..] == Paths(rows[1..]);
      assert s[0] == Store(list[0], rows[0]);
      assert (forall i :: 0 <= i < |rows| ==> |list[i].name| <= |rows[i].dev|)
        <==> |list[0].name| <= |rows[0].dev|
             && (forall i :: 0 <= i < |rows| - 1 ==> |list[1..][i].name| <= |rows[1..][i].dev|) by {
        if forall i :: 0 <= i < |rows| - 1 ==> |list[1..][i].name| <= |rows[1..][i].dev| {
          forall i | 1 <= i < |rows| ensures |list[i].name| <= |rows[i].dev| {
            assert list[1..][i - 1] == list[i] && rows[1..][i - 1] == rows[i];
          }
        }
      }
    }
  }

  // ---------- one fall and one rise ----------

  lemma {:induction false} CleanByLengths(iface: string, rows: seq<Row>, list: seq<Entry>)
    requires |rows| <= |list| && Live(iface, list[|rows|..]) == []
    requires multiset(Map(EntryPath, Stored(rows, list)[..|rows|])) == multiset(Paths(rows))
    ensures Clean(iface, rows, list)
  {
    hide Filter, NameLengths, Paths, Stored;
    var rest := list[|rows|..];
    SameNameLengths(Map(EntryPath, Stored(rows, list)[..|rows|]), Paths(rows));
    StoredNameLengths(rows, list);
    FilterAll(LiveFor(iface), rest);
    forall i | |rows| <= i < |list| ensures !Matches(iface, list[i].name) {
      assert list[i] == rest[i - |rows|] && list[i] in rest;
      assert !LiveFor(iface)(list[i]);
    }
  }

  lemma {:induction false} SameCount<T>(a: seq<T>, b: seq<T>)
    requires multiset(a) == multiset(b)
    ensures |a| == |b|
  {
    assert |multiset(a)| == |a| && |multiset(b)| == |b|;
  }

  /** The live entries after a save stand for the saved rows, counted, if and only if the list was clean. */
  lemma LiveIsSavedIff(iface: string, rows: seq<Row>, list: seq<Entry>)
    requires |rows| <= |list| && forall r :: r in rows ==> Matches(iface, r.dev)
    ensures var live := Live(iface, Stored(rows, list));
            && |live| >= |rows|
            && (multiset(Map(EntryPath, live)) == multiset(Paths(rows)) <==> Clean(iface, rows, list))
  {
    hide Clean, Filter, Paths, Stored;
    var live, stored := Live(iface, Stored(rows, list)), Stored(rows, list)[..|rows|];
    LiveAfterSave(iface, rows, list);
    if Clean(iface, rows, list) {
      SaveIsSnapshotIff(iface, rows, list);
      PathsOfEntries(live);
      ReaddedPaths(rows);
    }
    if multiset(Map(EntryPath, live)) == multiset(Paths(rows)) {
      SameCount(Map(EntryPath, live), Paths(rows));
      PathCounts(rows);
      assert live == stored;
      CleanByLengths(iface, rows, list);
    }
  }

  lemma PathCounts(rows: seq<Row>)
    ensures |Paths(rows)| == |rows|
  {
  }

  /**
   Whatever a list holds when it is saved into: what its deletes then take from the table is what
   its adds later bring back, route by route and counted, if and only if the list was clean.
   */
  lemma TakenIsBroughtIff(iface: string, t: seq<Row>, u: seq<Row>, list: seq<Entry>)
    requires |Select(iface, t)| <= |list|
    ensures var live := Live(iface, Stored(Select(iface, t), list));
            Lacking(t, ExecAll(t, DelCommands(live))) == Lacking(ExecAll(u, AddCommands(live)), u)
            <==> Clean(iface, Select(iface, t), list)
  {
    hide Clean, Lacking, Select, ExecAll, Stored, DelCommands, AddCommands;
    var rows := Select(iface, t);
    var live := Live(iface, Stored(rows, list));
    SelectMatches(iface, t);
    LiveIsSavedIff(iface, rows, list);
    LiveMatch(iface, Stored(rows, list));
    Brought(u, live);
    if Clean(iface, rows, list) {
      SaveIsSnapshotIff(iface, rows, list);
      AllRowsTaken(iface, t);
    }
    if Lacking(t, ExecAll(t, DelCommands(live))) == multiset(Map(EntryPath, live)) {
      TakenCounts(iface, t, live);
    }
  }

  lemma LiveMatch(iface: string, list: seq<Entry>)
    ensures forall e :: e in Live(iface, list) ==> Matches(iface, e.name)
  {
    FilterAll(LiveFor(iface), list);
    assert forall e :: e in Live(iface, list) ==> LiveFor(iface)(e);
  }

  lemma AllRowsTaken(iface: string, t: seq<Row>)
    ensures Lacking(t, ExecAll(t, DelCommands(Snapshot(iface, t)))) == multiset(Paths(Select(iface, t)))
  {
    hide Paths, Filter, ExecAll, DelCommands;
    DownLeavesOthers(iface, t);
    PathsSplit(iface, t);
  }

  /** If as much is taken as the live entries say, it was everything. */
  lemma TakenCounts(iface: string, t: seq<Row>, live: seq<Entry>)
    requires (forall e :: e in live ==> Matches(iface, e.name)) && |live| >= |Select(iface, t)|
    requires Lacking(t, ExecAll(t, DelCommands(live))) == multiset(Map(EntryPath, live))
    ensures multiset(Map(EntryPath, live)) == multiset(Paths(Select(iface, t)))
  {
    hide Lacking, Select, ExecAll, Paths, DelCommands;
    var v := ExecAll(t, DelCommands(live));
    Taken(iface, t, live);
    PathCounts(Select(iface, t));
    CountsOf(Map(EntryPath, live));
    CountsOf(Paths(Select(iface, t)));
    var left := multiset(Paths(Select(iface, v)));
    assert |left| == 0;
    assert left == multiset{};
  }

  lemma {:induction false} CountsOf<T>(s: seq<T>)
    ensures |multiset(s)| == |s| && multiset(s) - multiset{} == multiset(s)
  {
  }

  // ---------- which observations leave a clean list ----------

  /** Tick `m` sees eth0 fall. */
  predicate FallsAt(init: Mode, ticks: seq<Tick>, m: nat)
    requires m < |ticks|
  {
    ModeBefore(init, ticks, m) == ON && ticks[m].seen == OFF
  }

  predicate RisesAt(init: Mode, ticks: seq<Tick>, m: nat)
    requires m < |ticks|
  {
    ModeBefore(init, ticks, m) == OFF && ticks[m].seen == ON
  }

  predicate NoRise(init: Mode, ticks: seq<Tick>, from: nat, to: nat)
    requires to <= |ticks|
  {
    forall m :: from <= m < to ==> !RisesAt(init, ticks, m)
  }

  /** Saving `b` over what a save of `a` left shows nothing of `a`. */
  predicate Overwrites(a: seq<Row>, b: seq<Row>) {
    |a| <= |b| && forall i :: 0 <= i < |a| ==> |a[i].dev| <= |b[i].dev|
  }

  /** Every fall that no rise has answered before tick `n` is overwritten by a save of `rows`. */
  predicate FallsOverwritten(init: Mode, ticks: seq<Tick>, n: nat, rows: seq<Row>)
    requires n <= |ticks|
  {
    forall m :: 0 <= m < n && FallsAt(init, ticks, m) && NoRise(init, ticks, m + 1, n)
      ==> Overwrites(Select(ETH0, ticks[m].table), rows)
  }

  predicate EthNames(list: seq<Entry>) {
    forall i :: 0 <= i < |list| ==> list[i].name == "" || Matches(ETH0, list[i].name)
  }

  lemma {:induction false} ListNames(init: Mode, ticks: seq<Tick>, n: nat)
    requires n <= |ticks|
    ensures EthNames(EthBefore(init, ticks, n).list)
  {
    if n > 0 {
      ListNames(init, ticks, n - 1);
      SelectMatches(ETH0, ticks[n - 1].table);
      var rows := Select(ETH0, ticks[n - 1].table);
      forall i | 0 <= i < |rows| ensures Matches(ETH0, rows[i].dev) {
        assert rows[i] in rows;
      }
    }
  }

  lemma SavedOverIff(a: seq<Row>, list: seq<Entry>, rows: seq<Row>)
    requires |a| <= |list| && |rows| <= |list|
    requires forall i :: 0 <= i < |a| ==> Matches(ETH0, a[i].dev)
    ensures Clean(ETH0, rows, Stored(a, list)) <==> Overwrites(a, rows) && Clean(ETH0, rows, list)
  {
    var s := Stored(a, list);
    forall i | 0 <= i < |a| ensures s[i] == Store(list[i], a[i]) && Matches(ETH0, s[i].name) {
    }
    forall i | |a| <= i < |list| ensures s[i] == list[i] {
    }
    if Clean(ETH0, rows, s) {
      if |rows| < |list| {
        assert !Matches(ETH0, s[|rows|].name);
      }
      forall i | |rows| <= i < |list| ensures !Matches(ETH0, list[i].name) {
        assert s[i] == list[i];
      }
    }
  }

  /** At any tick of any run, the list is clean for given rows exactly under this condition. */
  lemma {:induction false} CleanIffOverwritten(init: Mode, ticks: seq<Tick>, n: nat, rows: seq<Row>)
    requires n <= |ticks| && |rows| <= ROUTE_LIST_NUM
    ensures Clean(ETH0, rows, EthBefore(init, ticks, n).list) <==> FallsOverwritten(init, ticks, n, rows)
  {
    hide Clean, Stored, Overwrites, FallsOverwritten;
    if n == 0 {
      BlankIsClean(rows, BLANK_LIST);
      NoFallsYet(init, ticks, rows);
    } else {
      var k := n - 1;
      var s, tick := EthBefore(init, ticks, k), ticks[k];
      CleanIffOverwritten(init, ticks, k, rows);
      FallsStep(init, ticks, n, rows);
      if FallsAt(init, ticks, k) {
        var a := Select(ETH0, tick.table);
        SelectMatches(ETH0, tick.table);
        forall i | 0 <= i < |a| ensures Matches(ETH0, a[i].dev) {
          assert a[i] in a;
        }
        SavedOverIff(a, s.list, rows);
      } else if RisesAt(init, ticks, k) {
        ListNames(init, ticks, k);
        BlankIsClean(rows, Cleared(ETH0, s.list));
      }
    }
  }

  lemma BlankIsClean(rows: seq<Row>, list: seq<Entry>)
    requires |rows| <= |list| && forall i :: 0 <= i < |list| ==> list[i].name == ""
    ensures Clean(ETH0, rows, list)
  {
  }

  lemma NoFallsYet(init: Mode, ticks: seq<Tick>, rows: seq<Row>)
    ensures FallsOverwritten(init, ticks, 0, rows)
  {
  }

  lemma {:induction false} NoRiseStep(init: Mode, ticks: seq<Tick>, m: nat, n: nat)
    requires m < n <= |ticks|
    ensures NoRise(init, ticks, m, n) <==> NoRise(init, ticks, m, n - 1) && !RisesAt(init, ticks, n - 1)
  {
    hide RisesAt;
  }

  /** What one more tick does to the condition. */
  lemma {:induction false} FallsStep(init: Mode, ticks: seq<Tick>, n: nat, rows: seq<Row>)
    requires 0 < n <= |ticks|
    ensures FallsOverwritten(init, ticks, n, rows)
       <==> RisesAt(init, ticks, n - 1)
            || (FallsOverwritten(init, ticks, n - 1, rows)
                && (FallsAt(init, ticks, n - 1) ==> Overwrites(Select(ETH0, ticks[n - 1].table), rows)))
  {
    hide NoRise, Overwrites, Select;
    var k := n - 1;
    assert NoRise(init, ticks, n, n) by { NothingBetween(init, ticks, n); }
    forall m: nat {:trigger FallsAt(init, ticks, m)} | m < k
      ensures NoRise(init, ticks, m + 1, n) <==> NoRise(init, ticks, m + 1, k) && !RisesAt(init, ticks, k)
    {
      NoRiseStep(init, ticks, m + 1, n);
    }
  }

  lemma NothingBetween(init: Mode, ticks: seq<Tick>, n: nat)
    requires n <= |ticks|
    ensures NoRise(init, ticks, n, n)
  {
  }

  /**
   With no assumption on the run: an OFF episode that began with the fall at tick `d` brings back
   at tick `j` exactly the routes that the fall took away, counted, if and only if every earlier
   fall that no rise has answered is overwritten by the rows found at this one.
   */
  lemma EpisodeRestoresIff(init: Mode, ticks: seq<Tick>, d: nat, j: nat)
    requires d < j < |ticks|
    requires ModeBefore(init, ticks, d) == ON && ticks[j].seen == ON
    requires forall i :: d <= i < j ==> ticks[i].seen == OFF
    ensures var t, u := ticks[d].table, ticks[j].table;
            Lacking(t, ExecAll(t, EthCommandsAt(init, ticks, d)))
            == Lacking(ExecAll(u, EthCommandsAt(init, ticks, j)), u)
            <==> FallsOverwritten(init, ticks, d, Select(ETH0, t))
  {
    hide Lacking, Clean;
    var t, list := ticks[d].table, EthBefore(init, ticks, d).list;
    ListKeptWhileOff(init, ticks, d, j);
    TakenIsBroughtIff(ETH0, t, ticks[j].table, list);
    CleanIffOverwritten(init, ticks, d, Select(ETH0, t));
  }

  // ---------- any rise of any run ----------

  /** The tick at which the OFF episode under way before tick `n` began, or 0. */
  function StartOf(init: Mode, ticks: seq<Tick>, n: nat): (m: nat)
    requires n <= |ticks|
    ensures m <= n
  {
    if n == 0 then 0
    else if ModeBefore(init, ticks, n - 1) == OFF then StartOf(init, ticks, n - 1)
    else n - 1
  }

  /** The adds of these entries, and the routes they bring, are those of the rows. */
  predicate SaysRows(live: seq<Entry>, rows: seq<Row>) { AddCommands(live) == AddCommands(Map(EntryOf, rows)) }

  predicate CountsRows(live: seq<Entry>, rows: seq<Row>) { multiset(Map(EntryPath, live)) == multiset(Paths(rows)) }

  lemma NoneLiveIff(list: seq<Entry>)
    ensures Clean(ETH0, [], list) <==> Live(ETH0, list) == []
  {
    hide Filter;
    FilterAll(LiveFor(ETH0), list);
    if Clean(ETH0, [], list) {
      forall e | e in list ensures !LiveFor(ETH0)(e) {
        var i :| 0 <= i < |list| && list[i] == e;
      }
    } else {
      var i :| 0 <= i < |list| && Matches(ETH0, list[i].name);
      assert list[i] in list && LiveFor(ETH0)(list[i]);
    }
  }

  lemma NothingOwedIff(list: seq<Entry>)
    ensures var live := Live(ETH0, list);
            && (SaysRows(live, []) <==> Clean(ETH0, [], list))
            && (CountsRows(live, []) <==> Clean(ETH0, [], list))
  {
    hide Filter, Clean;
    var live := Live(ETH0, list);
    NoneLiveIff(list);
    CountsOf(Map(EntryPath, live));
    CountsOf(Paths([]));
    assert |AddCommands(live)| == |live| && |AddCommands([])| == 0;
    assert Map(EntryOf, []) == [];
  }

  lemma SavedOwedIff(t: seq<Row>, list: seq<Entry>)
    requires |Select(ETH0, t)| <= |list|
    ensures var rows := Select(ETH0, t);
            var live := Live(ETH0, Stored(rows, list));
            && (SaysRows(live, rows) <==> Clean(ETH0, rows, list))
            && (CountsRows(live, rows) <==> Clean(ETH0, rows, list))
  {
    hide Filter, Clean, Stored, AddCommands;
    SelectMatches(ETH0, t);
    SaveIsSnapshotIff(ETH0, Select(ETH0, t), list);
    LiveIsSavedIff(ETH0, Select(ETH0, t), list);
  }

  /** What an OFF episode that is under way will bring back, against what it owes. */
  lemma {:induction false} ListHoldsOwedIff(init: Mode, ticks: seq<Tick>, n: nat)
    requires n <= |ticks| && ModeBefore(init, ticks, n) == OFF
    ensures var live, owed := Live(ETH0, EthBefore(init, ticks, n).list), Owed(init, ticks, n);
            var holds := FallsOverwritten(init, ticks, StartOf(init, ticks, n), owed);
            && (SaysRows(live, owed) <==> holds)
            && (CountsRows(live, owed) <==> holds)
  {
    hide FallsOverwritten, Clean, Stored, Live, SaysRows, CountsRows;
    if n == 0 {
      BlankIsClean([], BLANK_LIST);
      NothingOwedIff(BLANK_LIST);
      NoFallsYet(init, ticks, []);
    } else {
      var list := EthBefore(init, ticks, n - 1).list;
      match ModeBefore(init, ticks, n - 1)
      case OFF => ListHoldsOwedIff(init, ticks, n - 1);
      case NONE =>
        CleanIffOverwritten(init, ticks, n - 1, []);
        NothingOwedIff(list);
      case ON =>
        CleanIffOverwritten(init, ticks, n - 1, Select(ETH0, ticks[n - 1].table));
        SavedOwedIff(ticks[n - 1].table, list);
    }
  }

  /**
   Every OFF-to-ON tick of every run: it issues exactly the adds that are owed, and brings back
   exactly the owed routes, counted, if and only if every fall that no rise had answered when the
   episode began is overwritten by the owed rows.  What is owed are the rows found at the fall if
   the episode began with one, and nothing if it began from NONE or at init.
   */
  lemma RiseRestoresIff(init: Mode, ticks: seq<Tick>, j: nat)
    requires j < |ticks| && RisesAt(init, ticks, j)
    ensures var owed, u := Owed(init, ticks, j), ticks[j].table;
            var holds := FallsOverwritten(init, ticks, StartOf(init, ticks, j), owed);
            && (EthCommandsAt(init, ticks, j) == AddCommands(Map(EntryOf, owed)) <==> holds)
            && (Lacking(ExecAll(u, EthCommandsAt(init, ticks, j)), u) == multiset(Paths(owed)) <==> holds)
  {
    hide Lacking, FallsOverwritten, AddCommands, ExecAll, Live;
    ListHoldsOwedIff(init, ticks, j);
    Brought(ticks[j].table, Live(ETH0, EthBefore(init, ticks, j).list));
  }

  /** After a fall, OFF to NONE and NONE to OFF, the rise owes nothing but brings back the fallen route. */
  lemma StaleRouteFromNone(a: Row)
    requires Fits([a]) && a.dev == ETH0
    ensures var ticks := [Tick(OFF, [a]), Tick(NONE, []), Tick(OFF, []), Tick(ON, [])];
            && RisesAt(ON, ticks, 3) && Owed(ON, ticks, 3) == []
            && EthCommandsAt(ON, ticks, 3) != []
  {
    var ticks := [Tick(OFF, [a]), Tick(NONE, []), Tick(OFF, []), Tick(ON, [])];
    assert ModeBefore(ON, ticks, 0) == ON && ModeBefore(ON, ticks, 1) == OFF;
    assert ModeBefore(ON, ticks, 2) == NONE && ModeBefore(ON, ticks, 3) == OFF;
    assert FallsAt(ON, ticks, 0) && NoRise(ON, ticks, 1, 2);
    FilterAll(RowOf(ETH0), [a]);
    assert !Overwrites(Select(ETH0, ticks[0].table), []);
    assert StartOf(ON, ticks, 3) == 2;
    RiseRestoresIff(ON, ticks, 3);
    assert Map(EntryOf, Owed(ON, ticks, 3)) == [] && AddCommands([]) == [];
  }
}
