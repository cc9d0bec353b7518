/** The two interface state machines of connsel (connsel_netif.c), one tick at a time. */
module NetIf {
  import opened Seqs
  import opened Routes
  import opened RouteTheorems
  import opened MetricRefresh

  const ETH0 := "eth0"
  const WLAN0 := "wlan0"
  const WLAN0_METRIC := 20

  /** The update period of 20000 ms in thread periods of 1000 ms. */
  const WLAN0_METRIC_UPDATE_CNT := 20

  const UINT_MOD := 0x1_0000_0000

  datatype Mode = NONE | OFF | ON

  const BLANK_LIST: RouteList := [BLANK, BLANK, BLANK, BLANK]

  type RouteList = l: seq<Entry> | |l| == ROUTE_LIST_NUM witness [BLANK, BLANK, BLANK, BLANK]

  /** Tables whose rows for either interface fit its list, which the source does not check. */
  predicate Fits(t: seq<Row>) {
    |Select(ETH0, t)| <= ROUTE_LIST_NUM && |Select(WLAN0, t)| <= ROUTE_LIST_NUM
  }

  type Table = t: seq<Row> | Fits(t)

  // ---------- one tick of eth0 ----------

  datatype Eth = Eth(mode: Mode, list: RouteList)

  function EthCommands(s: Eth, seen: Mode, t: Table): seq<Command> {
    if s.mode == ON && seen == OFF then DelCommands(Live(ETH0, Stored(Select(ETH0, t), s.list)))
    else if s.mode == OFF && seen == ON then AddCommands(Live(ETH0, s.list))
    else []
  }

  function EthNext(s: Eth, seen: Mode, t: Table): Eth {
    Eth(seen,
        if s.mode == ON && seen == OFF then Stored(Select(ETH0, t), s.list)
        else if s.mode == OFF && seen == ON then Cleared(ETH0, s.list)
        else s.list)
  }

  class Eth0 {
    var mode: Mode
    const routeList: array<Entry>

    ghost predicate Valid() { routeList.Length == ROUTE_LIST_NUM }

    ghost function View(): Eth
      requires Valid()
      reads this, routeList
    {
      Eth(mode, routeList[..])
    }

    /** Static storage starts as zeros; eth0_init then records the observed state. */
    constructor (seen: Mode)
      ensures Valid() && fresh(routeList) && View() == Eth(seen, BLANK_LIST)
    {
      mode := seen;
      routeList := new Entry[ROUTE_LIST_NUM](_ => BLANK);
    }

    method Deinit()
      requires Valid()
      modifies this
      ensures View() == old(View()).(mode := NONE)
    {
      mode := NONE;
    }

    method Run(k: Kernel, seen: Mode)
      requires Valid() && Fits(k.table)
      modifies this, routeList, k
      ensures View() == EthNext(old(View()), seen, old(k.table))
      ensures var cs := EthCommands(old(View()), seen, old(k.table));
              k.table == ExecAll(old(k.table), cs) && k.log == old(k.log) + cs
      ensures mode == seen
      ensures !(old(mode) == ON && seen == OFF) && !(old(mode) == OFF && seen == ON) ==>
                k.table == old(k.table) && k.log == old(k.log) && routeList[..] == old(routeList[..])
    {
      match mode {
        case ON =>
          if seen == OFF {
            SaveRouteList(k, ETH0, routeList);
            DelRoute(k, ETH0, routeList);
          }
        case OFF =>
          if seen == ON {
            AddRoute(k, ETH0, routeList);
            ClearRouteList(ETH0, routeList);
          }
        case NONE =>
      }
      mode := seen;
    }
  }

  // ---------- one tick of wlan0 ----------

  datatype Wlan = Wlan(mode: Mode, cnt: nat, list: RouteList)

  predicate Due(mode: Mode, cnt: nat, seen: Mode) {
    mode == ON && seen == ON && cnt % WLAN0_METRIC_UPDATE_CNT == 0
  }

  function NextCount(mode: Mode, cnt: nat, seen: Mode): nat {
    if mode == ON && seen == ON then ((if Due(mode, cnt, seen) then 0 else cnt) + 1) % UINT_MOD
    else if mode != ON && seen == ON then 0
    else cnt
  }

  predicate RefreshDue(s: Wlan, seen: Mode) { Due(s.mode, s.cnt, seen) }

  function WlanCommands(s: Wlan, seen: Mode, t: Table): seq<Command> {
    if RefreshDue(s, seen)
    then UpdateCommands(Live(WLAN0, Stored(Select(WLAN0, t), s.list)), WLAN0_METRIC)
    else []
  }

  function WlanNext(s: Wlan, seen: Mode, t: Table): Wlan {
    Wlan(seen, NextCount(s.mode, s.cnt, seen),
         if RefreshDue(s, seen) then Cleared(WLAN0, Stored(Select(WLAN0, t), s.list)) else s.list)
  }

  class Wlan0 {
    var mode: Mode
    var metricCnt: nat
    const routeList: array<Entry>

    ghost predicate Valid() { routeList.Length == ROUTE_LIST_NUM }

    ghost function View(): Wlan
      requires Valid()
      reads this, routeList
    {
      Wlan(mode, metricCnt, routeList[..])
    }

    constructor (seen: Mode)
      ensures Valid() && fresh(routeList) && View() == Wlan(seen, 0, BLANK_LIST)
    {
      mode, metricCnt := seen, 0;
      routeList := new Entry[ROUTE_LIST_NUM](_ => BLANK);
    }

    method Deinit()
      requires Valid()
      modifies this
      ensures View() == old(View()).(mode := NONE, cnt := 0)
    {
      mode, metricCnt := NONE, 0;
    }

    method Run(k: Kernel, seen: Mode)
      requires Valid() && Fits(k.table)
      modifies this, routeList, k
      ensures View() == WlanNext(old(View()), seen, old(k.table))
      ensures var cs := WlanCommands(old(View()), seen, old(k.table));
              k.table == ExecAll(old(k.table), cs) && k.log == old(k.log) + cs
      ensures mode == seen
      ensures !(old(mode) == ON && seen == ON && old(metricCnt) % WLAN0_METRIC_UPDATE_CNT == 0) ==>
                k.table == old(k.table) && k.log == old(k.log) && routeList[..] == old(routeList[..])
    {
      match mode {
        case ON =>
          if seen == ON {
            if metricCnt % WLAN0_METRIC_UPDATE_CNT == 0 {
              metricCnt := 0;
              SaveRouteList(k, WLAN0, routeList);
              UpdateMetric(k, WLAN0, routeList, WLAN0_METRIC);
              ClearRouteList(WLAN0, routeList);
            }
            metricCnt := (metricCnt + 1) % UINT_MOD;
          }
        case OFF =>
          if seen == ON {
            metricCnt := 0;
          }
        case NONE =>
          if seen == ON {
            metricCnt := 0;
          }
      }
      mode := seen;
    }
  }
}
