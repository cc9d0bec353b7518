/**
 Whole runs of the interface state machines.  Other programs may change the route table at any
 time, so every tick brings the table it finds as well as the state it observes.
 */
module NetIfRuns {
  import opened Seqs
  import opened Routes
  import opened RouteTheorems
  import opened MetricRefresh
  import opened NetIf

  datatype Tick = Tick(seen: Mode, table: Table)

  /** The stored state before tick `i`, from the state seen at init and the observations. */
  function ModeBefore(init: Mode, ticks: seq<Tick>, i: nat): Mode
    requires i <= |ticks|
  {
    if i == 0 then init else ticks[i - 1].seen
  }

  // ---------- eth0 ----------

  function EthBefore(init: Mode, ticks: seq<Tick>, i: nat): (s: Eth)
    requires i <= |ticks|
    ensures s.mode == ModeBefore(init, ticks, i)
  {
    if i == 0 then Eth(init, BLANK_LIST)
    else EthNext(EthBefore(init, ticks, i - 1), ticks[i - 1].seen, ticks[i - 1].table)
  }

  /** The commands of tick `i`. */
  function EthCommandsAt(init: Mode, ticks: seq<Tick>, i: nat): seq<Command>
    requires i < |ticks|
  {
    EthCommands(EthBefore(init, ticks, i), ticks[i].seen, ticks[i].table)
  }

  /** No tick before tick `n` sees eth0 go from OFF to NONE. */
  predicate NeverOffToNone(init: Mode, ticks: seq<Tick>, n: nat)
    requires n <= |ticks|
  {
    forall i {:trigger ModeBefore(init, ticks, i)} ::
      0 <= i < n && ModeBefore(init, ticks, i) == OFF ==> ticks[i].seen != NONE
  }

  predicate Unused(list: RouteList) {
    forall i :: 0 <= i < ROUTE_LIST_NUM ==> list[i].name == ""
  }

  predicate EthInvariant(s: Eth) {
    && (s.mode != OFF ==> Unused(s.list))
    && forall i :: 0 <= i < ROUTE_LIST_NUM ==> s.list[i].name == "" || Matches(ETH0, s.list[i].name)
  }

  lemma EthInvariantStep(s: Eth, seen: Mode, t: Table)
    requires EthInvariant(s) && !(s.mode == OFF && seen == NONE)
    ensures EthInvariant(EthNext(s, seen, t))
  {
    if s.mode == ON && seen == OFF {
      var rows := Select(ETH0, t);
      SelectMatches(ETH0, t);
      forall i | 0 <= i < ROUTE_LIST_NUM
        ensures var name := Stored(rows, s.list)[i].name; name == "" || Matches(ETH0, name)
      {
        assert s.list[i].name == "";
        if i < |rows| {
          assert rows[i] in rows;
        }
      }
    }
  }

  /**
   In every run that never sees eth0 go from OFF to NONE, the saved list is unused whenever the
   stored state is ON or NONE, and in state OFF it holds nothing but eth0 entries.
   */
  lemma {:induction false} SavedListInvariant(init: Mode, ticks: seq<Tick>, n: nat)
    requires n <= |ticks| && NeverOffToNone(init, ticks, n)
    ensures EthInvariant(EthBefore(init, ticks, n))
  {
    if n > 0 {
      var s, tick := EthBefore(init, ticks, n - 1), ticks[n - 1];
      SavedListInvariant(init, ticks, n - 1);
      assert s.mode == ModeBefore(init, ticks, n - 1);
      EthInvariantStep(s, tick.seen, tick.table);
      assert EthBefore(init, ticks, n) == EthNext(s, tick.seen, tick.table);
    }
  }

  lemma UnusedIsClean(iface: string, t: seq<Row>, list: seq<Entry>)
    requires iface != "" && |Select(iface, t)| <= |list|
    requires forall i :: 0 <= i < |list| ==> list[i].name == ""
    ensures Clean(iface, Select(iface, t), list)
    ensures Live(iface, list) == []
    ensures Live(iface, Stored(Select(iface, t), list)) == Snapshot(iface, t)
  {
    FilterAll(LiveFor(iface), list);
    SelectMatches(iface, t);
    SaveIsSnapshotIff(iface, Select(iface, t), list);
  }

  /**
   The rows a restoration owes before tick `n`, read off the observations alone: those eth0 had
   when the present OFF episode began with a fall from ON, and none when it began at init or
   from NONE.
   */
  function Owed(init: Mode, ticks: seq<Tick>, n: nat): seq<Row>
    requires n <= |ticks|
  {
    if n == 0 || ModeBefore(init, ticks, n - 1) == NONE then []
    else if ModeBefore(init, ticks, n - 1) == ON then Select(ETH0, ticks[n - 1].table)
    else Owed(init, ticks, n - 1)
  }

  lemma {:induction false} ListHoldsOwed(init: Mode, ticks: seq<Tick>, n: nat)
    requires n <= |ticks| && NeverOffToNone(init, ticks, n) && ModeBefore(init, ticks, n) == OFF
    ensures Live(ETH0, EthBefore(init, ticks, n).list) == Map(EntryOf, Owed(init, ticks, n))
  {
    if n == 0 {
      UnusedIsClean(ETH0, [], BLANK_LIST);
    } else if ModeBefore(init, ticks, n - 1) == OFF {
      ListHoldsOwed(init, ticks, n - 1);
    } else {
      SavedListInvariant(init, ticks, n - 1);
      UnusedIsClean(ETH0, ticks[n - 1].table, EthBefore(init, ticks, n - 1).list);
    }
  }

  /**
   Restoration over whole runs.  In a run that never sees eth0 go from OFF to NONE, each tick that
   sees it come back on re-adds exactly the rows it owes, in their order, on top of whatever the
   table is by then, and touches no other device's row.
   */
  lemma RestorationOverRuns(init: Mode, ticks: seq<Tick>, j: nat)
    requires j < |ticks| && NeverOffToNone(init, ticks, j)
    requires ModeBefore(init, ticks, j) == OFF && ticks[j].seen == ON
    ensures var owed, u := Owed(init, ticks, j), ticks[j].table;
            var v := ExecAll(u, EthCommandsAt(init, ticks, j));
            && EthCommandsAt(init, ticks, j) == AddCommands(Map(EntryOf, owed))
            && Paths(Select(ETH0, v)) == Paths(owed) + Paths(Select(ETH0, u))
            && Others(ETH0, v) == Others(ETH0, u)
  {
    ListHoldsOwed(init, ticks, j);
    OwedIsSelected(init, ticks, j);
    RestoreRoundTrip(ETH0, Owed(init, ticks, j), ticks[j].table);
  }

  lemma {:induction false} OwedIsSelected(init: Mode, ticks: seq<Tick>, n: nat)
    requires n <= |ticks|
    ensures Select(ETH0, Owed(init, ticks, n)) == Owed(init, ticks, n)
  {
    if n > 0 && ModeBefore(init, ticks, n - 1) == ON {
      FilterFilter(RowOf(ETH0), RowOf(ETH0), ticks[n - 1].table);
    } else if n > 0 {
      OwedIsSelected(init, ticks, n - 1);
    }
  }

  /**
   Each tick that sees eth0 fall deletes exactly its rows, which are what the restoration then
   owes, and leaves the rows of the other devices.
   */
  lemma FallLeavesOthers(init: Mode, ticks: seq<Tick>, d: nat)
    requires d < |ticks| && NeverOffToNone(init, ticks, d)
    requires ModeBefore(init, ticks, d) == ON && ticks[d].seen == OFF
    ensures var t := ticks[d].table;
            var v := ExecAll(t, EthCommandsAt(init, ticks, d));
            && Select(ETH0, v) == [] && v == Others(ETH0, v) == Others(ETH0, t)
            && Owed(init, ticks, d + 1) == Select(ETH0, t)
  {
    SavedListInvariant(init, ticks, d);
    UnusedIsClean(ETH0, ticks[d].table, EthBefore(init, ticks, d).list);
    DownLeavesOthers(ETH0, ticks[d].table);
  }

  lemma {:induction false} ListKeptWhileOff(init: Mode, ticks: seq<Tick>, d: nat, j: nat)
    requires d < j <= |ticks| && forall i :: d <= i < j ==> ticks[i].seen == OFF
    ensures EthBefore(init, ticks, j).list == EthBefore(init, ticks, d + 1).list
  {
    if d + 1 < j {
      ListKeptWhileOff(init, ticks, d, j - 1);
    }
  }

  /**
   With no assumption on the run: after an OFF episode that began with the fall at tick `d`, the
   adds at tick `j` are those of the rows found at the fall, if and only if the list was clean for
   them.
   */
  lemma EpisodeCommandsIff(init: Mode, ticks: seq<Tick>, d: nat, j: nat)
    requires d < j < |ticks|
    requires ModeBefore(init, ticks, d) == ON && ticks[j].seen == ON
    requires forall i :: d <= i < j ==> ticks[i].seen == OFF
    ensures EthCommandsAt(init, ticks, j) == AddCommands(Snapshot(ETH0, ticks[d].table))
       <==> Clean(ETH0, Select(ETH0, ticks[d].table), EthBefore(init, ticks, d).list)
  {
    ListKeptWhileOff(init, ticks, d, j);
    SelectMatches(ETH0, ticks[d].table);
    SaveIsSnapshotIff(ETH0, Select(ETH0, ticks[d].table), EthBefore(init, ticks, d).list);
  }

  /**
   A tick of any run issues a command if and only if it sees eth0 fall with a row in the table or an
   entry left in the list, or sees it rise with an entry in the list; every other tick leaves the
   table and the list alone.
   */
  lemma EthActsIff(init: Mode, ticks: seq<Tick>, i: nat)
    requires i < |ticks|
    ensures var was, seen, t := ModeBefore(init, ticks, i), ticks[i].seen, ticks[i].table;
            var live := Live(ETH0, EthBefore(init, ticks, i).list);
            && (EthCommandsAt(init, ticks, i) != []
                <==> (was == ON && seen == OFF && (Select(ETH0, t) != [] || live != []))
                     || (was == OFF && seen == ON && live != []))
            && (!(was == ON && seen == OFF) && !(was == OFF && seen == ON) ==>
                  && ExecAll(t, EthCommandsAt(init, ticks, i)) == t
                  && EthBefore(init, ticks, i + 1).list == EthBefore(init, ticks, i).list)
  {
    hide Filter, Stored;
    var t, list := ticks[i].table, EthBefore(init, ticks, i).list;
    var rows := Select(ETH0, t);
    SelectMatches(ETH0, t);
    LiveAfterSave(ETH0, rows, list);
    if rows == [] {
      assert list[0..] == list;
    }
  }

  function StaleRun(a: Row, b: Row, c: Row): seq<Tick>
    requires Fits([a, b]) && Fits([c])
  {
    [Tick(OFF, [a, b]), Tick(NONE, []), Tick(ON, []), Tick(OFF, [c]), Tick(ON, [])]
  }

  /**
   The promise fails after an OFF-to-NONE observation: here eth0 falls with two rows, vanishes,
   and comes back and falls with one row; the list then still holds the stale second route, and
   the restoration is not that of the last fall.
   */
  lemma StaleRouteComesBack(a: Row, b: Row, c: Row)
    requires Fits([a, b]) && Fits([c])
    requires a.dev == b.dev == c.dev == ETH0
    ensures var ticks := StaleRun(a, b, c);
            && !NeverOffToNone(ON, ticks, 4)
            && EthCommandsAt(ON, ticks, 4) != AddCommands(Snapshot(ETH0, [c]))
            && EntryOf(b) in Live(ETH0, EthBefore(ON, ticks, 4).list)
  {
    var ticks := StaleRun(a, b, c);
    assert ModeBefore(ON, ticks, 1) == OFF && ticks[1].seen == NONE;
    FilterAll(RowOf(ETH0), [a, b]);
    FilterAll(RowOf(ETH0), [c]);
    var l: RouteList := Stored([a, b], BLANK_LIST);
    assert EthBefore(ON, ticks, 1) == Eth(OFF, l);
    assert EthBefore(ON, ticks, 2) == Eth(NONE, l);
    assert EthBefore(ON, ticks, 3) == Eth(ON, l);
    assert l[1] == EntryOf(b);
    assert !Clean(ETH0, Select(ETH0, [c]), l);
    EpisodeCommandsIff(ON, ticks, 3, 4);
    var l4: RouteList := Stored([c], l);
    assert EthBefore(ON, ticks, 4) == Eth(OFF, l4);
    assert l4[1] == EntryOf(b) && EntryOf(b) in l4;
    FilterAll(LiveFor(ETH0), l4);
  }

  /** No tick of either machine, in any run, touches another device's rows. */
  lemma TicksKeepOthers(e: Eth, w: Wlan, seen: Mode, t: Table)
    ensures Others(ETH0, ExecAll(t, EthCommands(e, seen, t))) == Others(ETH0, t)
    ensures Others(WLAN0, ExecAll(t, WlanCommands(w, seen, t))) == Others(WLAN0, t)
  {
    EthTickKeepsOthers(e, seen, t);
    if RefreshDue(w, seen) {
      LiveCommands(WLAN0, Stored(Select(WLAN0, t), w.list), t);
    }
  }

  lemma EthTickKeepsOthers(e: Eth, seen: Mode, t: Table)
    ensures Others(ETH0, ExecAll(t, EthCommands(e, seen, t))) == Others(ETH0, t)
  {
    if e.mode == ON && seen == OFF {
      LiveCommands(ETH0, Stored(Select(ETH0, t), e.list), t);
    } else if e.mode == OFF && seen == ON {
      LiveCommands(ETH0, e.list, t);
    }
  }

  lemma LiveCommands(iface: string, list: seq<Entry>, t: seq<Row>)
    ensures var es := Live(iface, list);
            && Others(iface, ExecAll(t, DelCommands(es))) == Others(iface, t)
            && Others(iface, ExecAll(t, AddCommands(es))) == Others(iface, t)
            && Others(iface, ExecAll(t, UpdateCommands(es, WLAN0_METRIC))) == Others(iface, t)
  {
    var es := Live(iface, list);
    FilterAll(LiveFor(iface), list);
    forall e | e in es ensures Matches(iface, e.name) {
      assert LiveFor(iface)(e);
    }
    CommandsAreAbout(iface, es, WLAN0_METRIC);
    CommandsKeepOthers(iface, t, DelCommands(es));
    CommandsKeepOthers(iface, t, AddCommands(es));
    CommandsKeepOthers(iface, t, UpdateCommands(es, WLAN0_METRIC));
  }

  // ---------- wlan0 ----------

  function WlanBefore(init: Mode, ticks: seq<Tick>, i: nat): Wlan
    requires i <= |ticks|
  {
    if i == 0 then Wlan(init, 0, BLANK_LIST)
    else WlanNext(WlanBefore(init, ticks, i - 1), ticks[i - 1].seen, ticks[i - 1].table)
  }

  /** The counter before tick `i`: it depends on the observations only. */
  function CountBefore(init: Mode, ticks: seq<Tick>, i: nat): nat
    requires i <= |ticks|
  {
    if i == 0 then 0
    else NextCount(ModeBefore(init, ticks, i - 1), CountBefore(init, ticks, i - 1), ticks[i - 1].seen)
  }

  predicate RefreshAt(init: Mode, ticks: seq<Tick>, i: nat)
    requires i < |ticks|
  {
    Due(ModeBefore(init, ticks, i), CountBefore(init, ticks, i), ticks[i].seen)
  }

  lemma NextCountBounded(mode: Mode, cnt: nat, seen: Mode)
    requires cnt <= WLAN0_METRIC_UPDATE_CNT
    ensures NextCount(mode, cnt, seen) <= WLAN0_METRIC_UPDATE_CNT
  {
  }

  lemma {:induction false} CountBounded(init: Mode, ticks: seq<Tick>, i: nat)
    requires i <= |ticks|
    ensures CountBefore(init, ticks, i) <= WLAN0_METRIC_UPDATE_CNT
  {
    if i > 0 {
      CountBounded(init, ticks, i - 1);
      NextCountBounded(ModeBefore(init, ticks, i - 1), CountBefore(init, ticks, i - 1), ticks[i - 1].seen);
    }
  }

  lemma ClearedAgain(t: Table, list: RouteList)
    requires Unused(list)
    ensures Unused(Cleared(WLAN0, Stored(Select(WLAN0, t), list)))
  {
    var rows := Select(WLAN0, t);
    FilterAll(RowOf(WLAN0), t);
    forall i | 0 <= i < ROUTE_LIST_NUM ensures Cleared(WLAN0, Stored(rows, list))[i].name == "" {
      assert list[i].name == "";
      if i < |rows| {
        assert rows[i] in rows && RowOf(WLAN0)(rows[i]);
      }
    }
  }

  /**
   After every tick of every run the wlan0 list is unused again and the counter lies between 0
   and the update count, so it never wraps.
   */
  lemma {:induction false} WlanInvariant(init: Mode, ticks: seq<Tick>, n: nat)
    requires n <= |ticks|
    ensures var s := WlanBefore(init, ticks, n);
            && s.mode == ModeBefore(init, ticks, n)
            && s.cnt == CountBefore(init, ticks, n)
            && 0 <= s.cnt <= WLAN0_METRIC_UPDATE_CNT
            && Unused(s.list)
  {
    CountBounded(init, ticks, n);
    if n > 0 {
      WlanInvariant(init, ticks, n - 1);
      ClearedAgain(ticks[n - 1].table, WlanBefore(init, ticks, n - 1).list);
    }
  }

  /** Every refresh of every run is a refresh of the table found, and other ticks issue nothing. */
  lemma WlanTicksRefresh(init: Mode, ticks: seq<Tick>, i: nat)
    requires i < |ticks|
    ensures var t := ticks[i].table;
            ExecAll(t, WlanCommands(WlanBefore(init, ticks, i), ticks[i].seen, t))
            == if RefreshAt(init, ticks, i) then Refreshed(WLAN0, t, WLAN0_METRIC) else t
  {
    WlanInvariant(init, ticks, i);
    UnusedIsClean(WLAN0, ticks[i].table, WlanBefore(init, ticks, i).list);
  }

  /** The state became ON before tick `e`, at init or from OFF or NONE, and stays ON for `n` ticks. */
  predicate OnFor(init: Mode, ticks: seq<Tick>, e: nat, n: nat) {
    && e + n <= |ticks|
    && (e > 0 ==> ModeBefore(init, ticks, e - 1) != ON)
    && forall i :: e <= i <= e + n ==> ModeBefore(init, ticks, i) == ON
  }

  /** The counter after n ticks that stayed ON. */
  function Phase(n: nat): (c: nat)
    ensures c <= WLAN0_METRIC_UPDATE_CNT
  {
    if n == 0 then 0 else if Phase(n - 1) == WLAN0_METRIC_UPDATE_CNT then 1 else Phase(n - 1) + 1
  }

  lemma NextRemainder(m: nat)
    ensures var r := m % WLAN0_METRIC_UPDATE_CNT;
            (m + 1) % WLAN0_METRIC_UPDATE_CNT == if r == WLAN0_METRIC_UPDATE_CNT - 1 then 0 else r + 1
  {
  }

  lemma {:induction false} PhaseIsRemainder(n: nat)
    ensures Phase(n) == if n == 0 then 0 else (n - 1) % WLAN0_METRIC_UPDATE_CNT + 1
    ensures Phase(n) == 0 || Phase(n) == WLAN0_METRIC_UPDATE_CNT <==> n % WLAN0_METRIC_UPDATE_CNT == 0
  {
    if n > 0 {
      PhaseIsRemainder(n - 1);
      if n > 1 {
        NextRemainder(n - 2);
      }
      NextRemainder(n - 1);
    }
  }

  lemma DueIff(cnt: nat)
    requires cnt <= WLAN0_METRIC_UPDATE_CNT
    ensures Due(ON, cnt, ON) <==> cnt == 0 || cnt == WLAN0_METRIC_UPDATE_CNT
    ensures NextCount(ON, cnt, ON) == if cnt == WLAN0_METRIC_UPDATE_CNT then 1 else cnt + 1
  {
  }

  lemma {:induction false} CountSinceOn(init: Mode, ticks: seq<Tick>, e: nat, n: nat)
    requires OnFor(init, ticks, e, n)
    ensures CountBefore(init, ticks, e + n) == Phase(n)
    decreases n
  {
    if n > 0 {
      CountSinceOn(init, ticks, e, n - 1);
      assert ModeBefore(init, ticks, e + n - 1) == ON && ModeBefore(init, ticks, e + n) == ON;
      DueIff(Phase(n - 1));
    } else {
      assert ModeBefore(init, ticks, e) == ON;
    }
  }

  /** Of the ticks that stay ON, exactly every twentieth one refreshes, beginning with the first. */
  lemma RefreshEveryPeriod(init: Mode, ticks: seq<Tick>, e: nat, k: nat)
    requires OnFor(init, ticks, e, k + 1)
    ensures RefreshAt(init, ticks, e + k) <==> k % WLAN0_METRIC_UPDATE_CNT == 0
  {
    CountSinceOn(init, ticks, e, k);
    PhaseIsRemainder(k);
    DueIff(Phase(k));
    assert ModeBefore(init, ticks, e + k) == ON && ModeBefore(init, ticks, e + k + 1) == ON;
  }

  /** How many of the `n` ticks from tick `e` refresh. */
  function Refreshes(init: Mode, ticks: seq<Tick>, e: nat, n: nat): nat
    requires e + n <= |ticks|
  {
    if n == 0 then 0
    else Refreshes(init, ticks, e, n - 1) + if RefreshAt(init, ticks, e + n - 1) then 1 else 0
  }

  lemma PeriodsStep(n: nat)
    requires n > 0
    ensures (n + WLAN0_METRIC_UPDATE_CNT - 1) / WLAN0_METRIC_UPDATE_CNT
         == (n - 1 + WLAN0_METRIC_UPDATE_CNT - 1) / WLAN0_METRIC_UPDATE_CNT
            + if (n - 1) % WLAN0_METRIC_UPDATE_CNT == 0 then 1 else 0
  {
  }

  /** n ticks in a row that stay ON perform ceil(n / update count) refreshes. */
  lemma {:induction false} RefreshRate(init: Mode, ticks: seq<Tick>, e: nat, n: nat)
    requires OnFor(init, ticks, e, n)
    ensures Refreshes(init, ticks, e, n) == (n + WLAN0_METRIC_UPDATE_CNT - 1) / WLAN0_METRIC_UPDATE_CNT
  {
    hide RefreshAt, ModeBefore;
    if n > 0 {
      RefreshRate(init, ticks, e, n - 1);
      RefreshEveryPeriod(init, ticks, e, n - 1);
      PeriodsStep(n);
    }
  }

  /**
   How many ticks just before tick `i` stayed ON in a row, read off the observations alone: the
   tick that entered ON, from OFF, from NONE or at init, is not one of them.
   */
  function OnTicks(init: Mode, ticks: seq<Tick>, i: nat): nat
    requires i <= |ticks|
  {
    if i > 0 && ModeBefore(init, ticks, i - 1) == ON && ticks[i - 1].seen == ON then OnTicks(init, ticks, i - 1) + 1
    else 0
  }

  lemma {:induction false} CountIsPhase(init: Mode, ticks: seq<Tick>, i: nat)
    requires i <= |ticks| && ModeBefore(init, ticks, i) == ON
    ensures CountBefore(init, ticks, i) == Phase(OnTicks(init, ticks, i))
  {
    if i > 0 && ModeBefore(init, ticks, i - 1) == ON {
      CountIsPhase(init, ticks, i - 1);
      DueIff(Phase(OnTicks(init, ticks, i - 1)));
    }
  }

  /**
   Every tick of every run: it refreshes the table found if and only if it stays ON and the number
   of ticks that stayed ON just before it is a multiple of the update count; otherwise it issues
   nothing and leaves the table alone.
   */
  lemma RefreshesExactlyWhen(init: Mode, ticks: seq<Tick>, i: nat)
    requires i < |ticks|
    ensures var t := ticks[i].table;
            var cs := WlanCommands(WlanBefore(init, ticks, i), ticks[i].seen, t);
            if ModeBefore(init, ticks, i) == ON && ticks[i].seen == ON
               && OnTicks(init, ticks, i) % WLAN0_METRIC_UPDATE_CNT == 0
            then cs == UpdateCommands(Snapshot(WLAN0, t), WLAN0_METRIC)
            else cs == [] && ExecAll(t, cs) == t
  {
    hide Filter, Stored, UpdateCommands, Phase;
    WlanInvariant(init, ticks, i);
    UnusedIsClean(WLAN0, ticks[i].table, WlanBefore(init, ticks, i).list);
    if ModeBefore(init, ticks, i) == ON {
      CountIsPhase(init, ticks, i);
      PhaseIsRemainder(OnTicks(init, ticks, i));
      DueIff(Phase(OnTicks(init, ticks, i)));
    }
  }
}
