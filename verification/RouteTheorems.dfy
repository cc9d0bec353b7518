/** What the route-list operations mean for the kernel table. */
module RouteTheorems {
  import opened Seqs
  import opened Routes

  function Snapshot(iface: string, t: seq<Row>): seq<Entry> { Map(EntryOf, Select(iface, t)) }

  lemma SelectMatches(iface: string, t: seq<Row>)
    ensures forall r :: r in Select(iface, t) ==> Matches(iface, r.dev)
  {
    FilterAll(RowOf(iface), t);
    forall r | r in Select(iface, t) ensures Matches(iface, r.dev) {
      assert RowOf(iface)(r);
    }
  }

  lemma {:induction false} SnapshotMatches(iface: string, t: seq<Row>)
    ensures forall e :: e in Snapshot(iface, t) ==> Matches(iface, e.name)
  {
    if t != [] {
      SnapshotMatches(iface, t[1..]);
      if Matches(iface, t[0].dev) {
        assert ([t[0]] + Select(iface, t[1..]))[1..] == Select(iface, t[1..]);
      }
    }
  }

  lemma DelAt(es: seq<Entry>, i: nat)
    requires i < |es|
    ensures DelCommands(es)[i] == DelOf(es[i])
  {
    MapAt(DelOf, es);
  }

  lemma AddAt(es: seq<Entry>, i: nat)
    requires i < |es|
    ensures AddCommands(es)[|es| - 1 - i] == RestoreOf(es[i])
  {
    ReverseAt(es);
    MapAt(RestoreOf, Reverse(es));
  }

  // ---------- saving ----------

  /** The slots a save fills hold no longer name, and the slots it leaves hold no live entry. */
  predicate Clean(iface: string, rows: seq<Row>, list: seq<Entry>)
    requires |rows| <= |list|
  {
    && (forall i :: 0 <= i < |rows| ==> |list[i].name| <= |rows[i].dev|)
    && (forall i :: |rows| <= i < |list| ==> !Matches(iface, list[i].name))
  }

  lemma {:induction false} LiveAfterSave(iface: string, rows: seq<Row>, list: seq<Entry>)
    requires |rows| <= |list| && forall r :: r in rows ==> Matches(iface, r.dev)
    ensures Live(iface, Stored(rows, list)) == Stored(rows, list)[..|rows|] + Live(iface, list[|rows|..])
  {
    var s, n := Stored(rows, list), |rows|;
    FilterSplit(LiveFor(iface), s, n);
    assert s[n..] == list[n..];
    forall e | e in s[..n] ensures Matches(iface, e.name) {
      var i :| 0 <= i < n && e == s[i];
      assert Matches(iface, rows[i].dev);
    }
    FilterAll(LiveFor(iface), s[..n]);
  }

  /**
   A save into a used list is a snapshot of the table exactly when the list is clean for it;
   otherwise the commands issued from the list are not those of the snapshot either.
   */
  lemma SaveIsSnapshotIff(iface: string, rows: seq<Row>, list: seq<Entry>)
    requires |rows| <= |list| && forall r :: r in rows ==> Matches(iface, r.dev)
    ensures var live, want := Live(iface, Stored(rows, list)), Map(EntryOf, rows);
            && (live == want <==> Clean(iface, rows, list))
            && (AddCommands(live) == AddCommands(want) <==> Clean(iface, rows, list))
            && (DelCommands(live) == DelCommands(want) <==> Clean(iface, rows, list))
  {
    var live, want := Live(iface, Stored(rows, list)), Map(EntryOf, rows);
    if Clean(iface, rows, list) {
      CleanSaveIsSnapshot(iface, rows, list);
    } else {
      UncleanSaveDiffers(iface, rows, list);
      DifferentNames(live, want);
    }
  }

  predicate NamesDiffer(a: seq<Entry>, b: seq<Entry>) {
    |a| != |b| || exists i :: 0 <= i < |a| && a[i].name != b[i].name
  }

  lemma DifferentNames(a: seq<Entry>, b: seq<Entry>)
    requires NamesDiffer(a, b)
    ensures a != b && AddCommands(a) != AddCommands(b) && DelCommands(a) != DelCommands(b)
  {
    if |a| == |b| {
      var i :| 0 <= i < |a| && a[i].name != b[i].name;
      AddAt(a, i);
      AddAt(b, i);
      DelAt(a, i);
      DelAt(b, i);
    }
  }

  lemma {:induction false} CleanSaveIsSnapshot(iface: string, rows: seq<Row>, list: seq<Entry>)
    requires |rows| <= |list| && forall r :: r in rows ==> Matches(iface, r.dev)
    requires Clean(iface, rows, list)
    ensures Live(iface, Stored(rows, list)) == Map(EntryOf, rows)
  {
    LiveAfterSave(iface, rows, list);
    var rest := list[|rows|..];
    forall e | e in rest ensures !LiveFor(iface)(e) {
      var i :| 0 <= i < |rest| && e == rest[i];
      assert e == list[|rows| + i];
    }
    FilterAll(LiveFor(iface), rest);
    var s, want := Stored(rows, list), Map(EntryOf, rows);
    MapAt(EntryOf, rows);
    forall i | 0 <= i < |rows| ensures s[i] == want[i] {
      assert s[i] == Store(list[i], rows[i]) && |list[i].name| <= |rows[i].dev|;
    }
    assert s[..|rows|] == want;
  }

  lemma {:induction false} UncleanSaveDiffers(iface: string, rows: seq<Row>, list: seq<Entry>)
    requires |rows| <= |list| && forall r :: r in rows ==> Matches(iface, r.dev)
    requires !Clean(iface, rows, list)
    ensures NamesDiffer(Live(iface, Stored(rows, list)), Map(EntryOf, rows))
  {
    var live, want := Live(iface, Stored(rows, list)), Map(EntryOf, rows);
    LiveAfterSave(iface, rows, list);
    var rest := list[|rows|..];
    FilterAll(LiveFor(iface), rest);
    if |live| == |want| {
      assert Live(iface, rest) == [];
      forall i | |rows| <= i < |list| ensures !Matches(iface, list[i].name) {
        assert list[i] == rest[i - |rows|] && list[i] in rest;
        assert !LiveFor(iface)(list[i]);
      }
      var i :| 0 <= i < |rows| && |list[i].name| > |rows[i].dev|;
      assert live[i] == Stored(rows, list)[i];
      MapAt(EntryOf, rows);
      assert live[i].name != want[i].name;
    }
  }

  lemma ClearedIsClean(iface: string, list: seq<Entry>)
    requires iface != ""
    ensures Live(iface, Cleared(iface, list)) == []
  {
    FilterAll(LiveFor(iface), Cleared(iface, list));
  }

  /** Clearing takes the names of the interface's entries, and nothing else of any entry. */
  lemma ClearedExactly(iface: string, list: seq<Entry>, i: nat)
    requires i < |list|
    ensures var e, e' := list[i], Cleared(iface, list)[i];
            && e'.name == (if iface <= e.name then "" else e.name)
            && e'.metric == e.metric && e'.net == e.net && e'.gw == e.gw && e'.mask == e.mask
  {
  }

  /** A name that is saved over keeps its tail beyond the new name, as strncpy leaves it. */
  lemma SavedName(e: Entry, r: Row)
    ensures var name := Store(e, r).name;
            && r.dev <= name && |name| == (if |e.name| > |r.dev| then |e.name| else |r.dev|)
            && forall i :: |r.dev| <= i < |name| ==> name[i] == e.name[i]
    ensures var s := Store(e, r);
            s.metric == r.metric && s.net == r.net && s.gw == r.gw && s.mask == r.mask
  {
  }

  // ---------- taking an interface down and up ----------

  predicate About(iface: string, c: Command) { Matches(iface, c.dev) }

  /** Deletions about an interface pass over a head row of another device. */
  lemma {:induction false} DeletesSkipHead(iface: string, r: Row, t: seq<Row>, cs: seq<Command>)
    requires !Matches(iface, r.dev)
    requires forall c :: c in cs ==> c.Del? && About(iface, c)
    ensures ExecAll([r] + t, cs) == [r] + ExecAll(t, cs)
    decreases cs
  {
    if cs != [] {
      assert cs[0].Del? && About(iface, cs[0]);
      assert ([r] + t)[1..] == t;
      assert Exec([r] + t, cs[0]) == [r] + Exec(t, cs[0]);
      DeletesSkipHead(iface, r, Exec(t, cs[0]), cs[1..]);
    }
  }

  lemma SnapshotCons(iface: string, r: Row, rest: seq<Row>)
    ensures var cs := DelCommands(Snapshot(iface, [r] + rest));
            cs == (if Matches(iface, r.dev) then [DelOf(EntryOf(r))] else []) + DelCommands(Snapshot(iface, rest))
    ensures Others(iface, [r] + rest) == (if Matches(iface, r.dev) then [] else [r]) + Others(iface, rest)
  {
    assert ([r] + rest)[1..] == rest;
    var sel := Select(iface, rest);
    if Matches(iface, r.dev) {
      MapAppend(EntryOf, [r], sel);
      MapAppend(DelOf, Map(EntryOf, [r]), Map(EntryOf, sel));
    }
  }

  lemma {:induction false} SnapshotDeletes(iface: string, t: seq<Row>)
    ensures forall c :: c in DelCommands(Snapshot(iface, t)) ==> c.Del? && About(iface, c)
  {
    if t != [] {
      SnapshotDeletes(iface, t[1..]);
      assert t == [t[0]] + t[1..];
      SnapshotCons(iface, t[0], t[1..]);
    }
  }

  /** The first saved row is always the first row its delete command can hit. */
  lemma {:induction false} DeleteSnapshot(iface: string, t: seq<Row>)
    ensures ExecAll(t, DelCommands(Snapshot(iface, t))) == Others(iface, t)
  {
    if t != [] {
      var r, tail := t[0], t[1..];
      var cs := DelCommands(Snapshot(iface, tail));
      assert t == [r] + tail;
      SnapshotCons(iface, r, tail);
      DeleteSnapshot(iface, tail);
      if Matches(iface, r.dev) {
        assert ([DelOf(EntryOf(r))] + cs)[1..] == cs;
      } else {
        SnapshotDeletes(iface, tail);
        DeletesSkipHead(iface, r, tail, cs);
        assert [] + cs == cs;
      }
    }
  }

  /**
   Deleting a snapshot leaves exactly the rows of the other devices, in order, even when
   several rows of the interface share a net and a mask.
   */
  lemma DownLeavesOthers(iface: string, t: seq<Row>)
    ensures ExecAll(t, DelCommands(Snapshot(iface, t))) == Others(iface, t)
    ensures Select(iface, Others(iface, t)) == []
    ensures Others(iface, Others(iface, t)) == Others(iface, t)
  {
    DeleteSnapshot(iface, t);
    FilterAll(NotRowOf(iface), t);
    FilterAll(RowOf(iface), Others(iface, t));
    FilterAll(NotRowOf(iface), Others(iface, t));
  }

  function Readded(e: Entry): Row { Row(e.name, e.net, e.gw, e.mask, 0) }

  /** Adding from the last slot to the first puts the entries back in their saved order. */
  lemma {:induction false} UpPrepends(t: seq<Row>, es: seq<Entry>)
    ensures ExecAll(t, AddCommands(es)) == Map(Readded, es) + t
  {
    if es != [] {
      var e, tail := es[0], es[1..];
      assert es == [e] + tail;
      UpPrepends(t, tail);
      AddCommandsStep(e, tail);
      ExecLast(t, AddCommands(tail), RestoreOf(e));
      MapAppend(Readded, [e], tail);
    }
  }

  /**
   The rows deleted from table `t` come back on top of any later table `u` in their original
   order and with their gateways; the other devices' rows of `u` are untouched.  On the table
   the deletion left, this gives back the interface's routes.
   */
  lemma RestoreRoundTrip(iface: string, t: seq<Row>, u: seq<Row>)
    ensures var v := ExecAll(u, AddCommands(Snapshot(iface, t)));
            && Paths(Select(iface, v)) == Paths(Select(iface, t)) + Paths(Select(iface, u))
            && Others(iface, v) == Others(iface, u)
            && (u == Others(iface, t) ==>
                  Paths(Select(iface, v)) == Paths(Select(iface, t)) && Others(iface, v) == Others(iface, t))
  {
    var back := Map(Readded, Snapshot(iface, t));
    UpPrepends(u, Snapshot(iface, t));
    PrependedParts(iface, back, u) by { BackIsAbout(iface, t); }
    ReaddedPaths(Select(iface, t));
    DownLeavesOthers(iface, t);
  }

  lemma PrependedParts(iface: string, back: seq<Row>, u: seq<Row>)
    requires Select(iface, back) == back && Others(iface, back) == []
    ensures Select(iface, back + u) == back + Select(iface, u)
    ensures Paths(Select(iface, back + u)) == Paths(back) + Paths(Select(iface, u))
    ensures Others(iface, back + u) == Others(iface, u)
  {
    FilterAppend(RowOf(iface), back, u);
    FilterAppend(NotRowOf(iface), back, u);
    MapAppend(PathOf, back, Select(iface, u));
  }

  lemma {:induction false} ReaddedPaths(rows: seq<Row>)
    ensures Paths(Map(Readded, Map(EntryOf, rows))) == Paths(rows)
  {
    if rows != [] {
      ReaddedPaths(rows[1..]);
    }
  }

  lemma {:induction false} ReaddedMatch(iface: string, es: seq<Entry>)
    requires forall e :: e in es ==> Matches(iface, e.name)
    ensures Select(iface, Map(Readded, es)) == Map(Readded, es) && Others(iface, Map(Readded, es)) == []
  {
    if es != [] {
      assert es[0] in es;
      ReaddedMatch(iface, es[1..]);
    }
  }

  lemma BackIsAbout(iface: string, t: seq<Row>)
    ensures var back := Map(Readded, Snapshot(iface, t));
            Select(iface, back) == back && Others(iface, back) == []
  {
    SnapshotMatches(iface, t);
    ReaddedMatch(iface, Snapshot(iface, t));
  }

  lemma {:induction false} RemoveFirstKeeps(iface: string, t: seq<Row>, k: Key)
    requires Matches(iface, k.dev)
    ensures Others(iface, RemoveFirst(t, k)) == Others(iface, t)
  {
    if t != [] && KeyOf(t[0]) != k {
      RemoveFirstKeeps(iface, t[1..], k);
      var r := [t[0]] + RemoveFirst(t[1..], k);
      assert r[1..] == RemoveFirst(t[1..], k);
    }
  }

  /** Commands about an interface leave every other row in place and in order. */
  lemma {:induction false} CommandsKeepOthers(iface: string, t: seq<Row>, cs: seq<Command>)
    requires forall c :: c in cs ==> About(iface, c)
    ensures Others(iface, ExecAll(t, cs)) == Others(iface, t)
    decreases cs
  {
    if cs != [] {
      assert About(iface, cs[0]);
      if cs[0].Del? {
        RemoveFirstKeeps(iface, t, Key(cs[0].dev, cs[0].net, cs[0].mask));
      } else {
        assert Exec(t, cs[0])[1..] == t;
        assert Others(iface, Exec(t, cs[0])) == Others(iface, t);
      }
      CommandsKeepOthers(iface, Exec(t, cs[0]), cs[1..]);
    }
  }

  /** Whatever a list holds, the commands issued from it are about its interface. */
  lemma {:induction false} CommandsAreAbout(iface: string, es: seq<Entry>, met: int)
    requires forall e :: e in es ==> Matches(iface, e.name)
    ensures forall c :: c in DelCommands(es) ==> About(iface, c)
    ensures forall c :: c in AddCommands(es) ==> About(iface, c)
    ensures forall c :: c in UpdateCommands(es, met) ==> About(iface, c)
  {
    if es != [] {
      var e, tail := es[0], es[1..];
      assert es == [e] + tail && e in es;
      CommandsAreAbout(iface, tail, met);
      AddCommandsStep(e, tail);
    }
  }

  /**
   No command ever carries a zero gateway; a route is re-added without a metric, and a refresh adds
   with exactly the new one.
   */
  lemma {:induction false} GatewaysAndMetrics(es: seq<Entry>, met: int)
    ensures forall c :: c in AddCommands(es) ==> c.Add? && c.gw != Some(0) && c.metric == None
    ensures forall c :: c in UpdateCommands(es, met) && c.Add? ==> c.gw != Some(0) && c.metric == Some(met)
    ensures forall c :: c in DelCommands(es) ==> c.Del?
  {
    if es != [] {
      var e, tail := es[0], es[1..];
      assert es == [e] + tail;
      GatewaysAndMetrics(tail, met);
      AddCommandsStep(e, tail);
    }
  }
}
