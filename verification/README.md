# Verified models of the camera SDK

Dafny models of the parts of the SDK that carry state, loops or encodings, and the properties
proved of them. `dafny verify dfyconfig.toml` checks everything.

## What is modelled

**connsel** (`Routes`, `RouteTheorems`, `MetricRefresh`, `NetIf`, `NetIfRuns`, `Episodes`,
`Daemon`). The connection selector saves an interface's routes, deletes them, re-adds them and
rewrites their metric. The loops over the saved-route arrays are methods over arrays and a `Kernel` object that
holds the route table, newest row first, and the log of commands. `NetIf` has the two interface
objects; each tick is tied to a function of the state before it, and `NetIfRuns` proves what holds
over every run of ticks, with an arbitrary observed state and an arbitrary table at each of them.
`Episodes` counts what an OFF episode takes from the table and what it brings back. `Daemon` is the
process as a state machine over the steps of its two threads, with every interleaving of one signal.

Restoration as one would state it - each OFF to ON tick re-adds what the latest ON to OFF tick
removed - is not what the code does:

- what is due at an OFF to ON tick are the rows found when the present OFF episode began, if it
  began with a fall from ON, and nothing if it began from NONE or at init; the function `Owed` says
  so. In runs without an observed OFF to NONE exactly this is re-added (`RestorationOverRuns`);
- after OFF to NONE the saved list is not cleared, so the routes of an earlier fall can come back:
  beside those of a later fall (`StaleRouteComesBack`), or where nothing is due
  (`StaleRouteFromNone`, on a way such as ON, OFF, NONE, OFF, ON). `Episodes.RiseRestoresIff` says
  for every OFF to ON tick of every run exactly when what is due is re-added, as a condition on the
  ticks observed before it, and `Episodes.EpisodeRestoresIff` when an episode that began with a fall
  brings back what it took from the table.

The shutdown order - no run hook is called or still running after a deinit - rests on a call whose behaviour is not defined.
The signal handler runs on top of main()'s own blocked `pthread_join` of the daemon thread and joins
the same thread again; POSIX leaves overlapping joins of one thread undefined, and the handler goes
on whatever its join returns. The model has a parameter, `joinWaits`. `ShutdownOrderedIff` and
`ConnselOrderedIff` prove that the order holds over all interleavings if and only if that join
waits, and `JoinReturnsIff` what must be true of the thread when it does not.

A metric refresh reaches the metric everywhere, and conserves the routes, only under conditions on
rows that share net, mask and device; `RefreshReachesMetricIff` and `RefreshConservesPathsIff` are
exact, and `RefreshOnDistinctKeys` is the ordinary case.

**sqllib** (`Bytes`, `SqlRows`, `SqlDecode`, `SqlText`, `SqlWriters`, `SqlTheorems`, `SqlParse`).
`get_sqldatas` is a method over a reused scratch array and a growing output array, proved to build
a given byte format, for which `SqlDecode` has a decoder. The four functions that walk a tagged
field buffer print SQL text, for which `SqlParse` has a reference reader. Findings:

- a REAL or BLOB cell is counted by its row's first header, but takes no bytes. In later rows the
  header is patched, in the first row it is not, so the buffer decodes if and only if the first row
  has no such cell (`DecodesIff`), and a fixed-offset lookup may read the next row
  (`IntLookupAgreesIff`);
- `update_sqldata` reads its count and its types from one char, so from 128 fields on it disagrees
  with `add_sqldata` (`UpdateAgreesIff`; 256 where char is unsigned, which is a parameter of the
  model), and a type of 257 is an integer to it (`WideTypeIsCut`, `UnknownTypeStopsIff`);
- the loops over conditions do not step over a text value, so a text before the last condition
  makes the command fail with -1 (`ConditionsReadIff`, `ConditionsSayThemselvesIff`);
- texts are printed as they are, so a command says its fields if and only if no text holds a quote
  (`AddSaysItsFieldsIff`).

For each of these findings a lemma gives a concrete input.

**Capability options** (`OptionLists`, `Slots`, `VencOption`, `ResOption`, `ProductOption`). Lists
are printed without repetitions up to a sentinel and parsed over what the array held before, so
printing and parsing are not inverse. Proved are the exact conditions under which a message
reprints or an array comes back, stability over the same object, and idempotence of normalisation.
A message is a record of optional members; a missing or null element carries none. Floating values
are opaque with equality and a zero. The encoder entities of `cm_venc_option.c` and
`cm_product_option.c`, and the slot levels of `cm_venc_option.c` and `cm_res_option.c`, are the
same text and share a model. The sentinels that `cm_product_option.c` writes as list sizes are the
positions of NONE in the name tables.

**Audio callbacks** (`Audio`). The heap-linked list with tail insertion, the two walks over it, and
its release. What a codec function answers may depend on all calls made so far. Freeing a node
promises nothing about its fields afterwards, so nothing read from it can be relied on, and it must
not be freed a second time.

`Seqs` holds sequence vocabulary shared by all of them.

## How to read the models

A method over objects and arrays stands for a C function; its contract equates the new state with a
function of the old one, and the lemmas are about that function. Preconditions are what the C code
takes for granted: at most four rows per interface (`Fits`), rows within the 512-byte scratch buffer
(`RowsFit`), SQL text within 8192 bytes and walks inside their buffer (`AddFits`, `ItemsFit`,
`SetFits`), slot indices of -1 or an existing slot (`InRange`).

## Model

| member | source | states |
|---|---|---|
| Routes.Kernel.System | network_application/connsel/connsel_utils.c:168-183 | one `route` command changes the table as `Exec` says (add at the head, delete the first row with that net, mask and device) and is logged |
| Routes.RemoveFirstAt | network_application/connsel/connsel_utils.c:176-179 | a delete removes exactly the first row with its key, and nothing if there is none |
| Routes.SaveRouteList | network_application/connsel/connsel_utils.c:48-108 | the matching rows, in table order, overwrite the first slots; a longer old name keeps its tail; the other slots stay |
| Routes.ClearRouteList | network_application/connsel/connsel_utils.c:110-125 | exactly the entries whose name starts with the interface name lose their name; nothing else changes |
| Routes.AddRoute | network_application/connsel/connsel_utils.c:127-157 | issues one add per live entry, last slot first, without a metric and with a gateway only when it is not zero |
| Routes.DelRoute | network_application/connsel/connsel_utils.c:160-184 | issues one delete per live entry, first slot first |
| Routes.UpdateMetric | network_application/connsel/connsel_utils.c:187-223 | issues a delete and an add with the new metric for every live entry whose metric differs, in slot order |
| RouteTheorems.SelectMatches | network_application/connsel/connsel_utils.c:86-103 | every row a save takes belongs to the interface |
| RouteTheorems.SaveIsSnapshotIff | network_application/connsel/connsel_utils.c:72-103 | a save into a used list equals the snapshot of the table, and so do its delete and add commands, if and only if no kept slot is live and no kept name tail is longer |
| RouteTheorems.LiveAfterSave | network_application/connsel/connsel_utils.c:72-103 | the live entries after a save are the stored rows followed by the live entries behind them |
| RouteTheorems.ClearedIsClean | network_application/connsel/connsel_utils.c:110-125 | a list cleared for an interface has no live entry of it left |
| RouteTheorems.ClearedExactly | network_application/connsel/connsel_utils.c:110-125 | clearing takes the name of exactly the entries that begin with the interface name, and nothing else of any entry |
| RouteTheorems.SavedName | network_application/connsel/connsel_utils.c:86-103 | a saved entry has the row's values, and its name begins with the row's device and keeps the old name's tail beyond it |
| RouteTheorems.DeleteSnapshot | network_application/connsel/connsel_utils.c:160-184 | deleting the entries of a snapshot one after another leaves exactly the other devices' rows in order, also when rows share net and mask |
| RouteTheorems.DownLeavesOthers | network_application/connsel/connsel_utils.c:160-184 | after save and delete the interface has no row and all other rows are kept in order |
| RouteTheorems.UpPrepends | network_application/connsel/connsel_utils.c:127-157 | adding a list backwards puts its routes in front of the table in their original order, without metric |
| RouteTheorems.RestoreRoundTrip | network_application/connsel/connsel_utils.c:127-184 | down, any change of the table, up: the deleted (device, net, mask, gateway) come back in order in front of the rows the interface has by then; others are untouched |
| RouteTheorems.CommandsKeepOthers | network_application/connsel/connsel_utils.c:127-223 | commands about one interface never change another device's rows or their order |
| RouteTheorems.CommandsAreAbout | network_application/connsel/connsel_utils.c:127-223 | every command of the three loops is about the interface they were called for |
| RouteTheorems.GatewaysAndMetrics | network_application/connsel/connsel_utils.c:127-223 | no command carries a zero gateway; re-adding carries no metric, a refresh exactly the new one |
| MetricRefresh.RefreshedGroup | network_application/connsel/connsel_utils.c:187-223 | the rows of one key after a refresh: unchanged if all had the metric, else the last one that differed stands first with the metric and the former first one is gone |
| MetricRefresh.RefreshKeepsOthers | network_application/connsel/connsel_utils.c:187-223 | a refresh keeps all other devices' rows in order |
| MetricRefresh.RefreshReachesMetricIff | network_application/connsel/connsel_utils.c:187-223 | after a refresh every row of the interface has the metric if and only if before it only first rows of their key did not |
| MetricRefresh.RefreshConservesPathsIff | network_application/connsel/connsel_utils.c:187-223 | a refresh conserves the multiset of (device, net, mask, gateway) if and only if, per key, the replaced and the re-added row have the same gateway |
| MetricRefresh.SilentIff | network_application/connsel/connsel_utils.c:194-198 | a refresh issues no command if and only if every row of the interface has the metric |
| MetricRefresh.RefreshOnDistinctKeys | network_application/connsel/connsel_utils.c:187-223 | with pairwise distinct keys a refresh reaches the metric everywhere, conserves the routes, keeps the others, and a second one is silent |
| MetricRefresh.SharedKeyStaysOff | network_application/connsel/connsel_utils.c:187-223 | two rows of one key, of which a refresh leaves one off the metric |
| MetricRefresh.SharedKeyLosesRoute | network_application/connsel/connsel_utils.c:187-223 | two rows of one key with different gateways, of which a refresh loses one route |
| NetIf.Eth0.constructor | network_application/connsel/connsel_netif.c:26-38 | the observed state is recorded; the list in static storage is blank |
| NetIf.Eth0.Deinit | network_application/connsel/connsel_netif.c:40-49 | the state becomes NONE and the list stays |
| NetIf.Eth0.Run | network_application/connsel/connsel_netif.c:51-103 | one tick changes state, list, table and command log as `EthNext` and `EthCommands` say; a tick that is neither ON to OFF nor OFF to ON leaves table, log and list alone |
| NetIf.Wlan0.constructor | network_application/connsel/connsel_netif.c:115-126 | the observed state is recorded and the counter is zero |
| NetIf.Wlan0.Deinit | network_application/connsel/connsel_netif.c:128-138 | state NONE and counter zero; the list stays |
| NetIf.Wlan0.Run | network_application/connsel/connsel_netif.c:142-185 | one tick changes state, counter, list, table and command log as `WlanNext` and `WlanCommands` say; a tick that does not stay ON, or whose counter is no multiple of 20, leaves table, log and list alone |
| NetIfRuns.SavedListInvariant | network_application/connsel/connsel_netif.c:57-102 | in every run without an observed OFF to NONE, the eth0 list has no live entry whenever the state is ON or NONE |
| NetIfRuns.ListHoldsOwed | network_application/connsel/connsel_netif.c:57-102 | in every such run, while eth0 is OFF its list holds exactly the routes owed: those of the tick that went OFF, or none if it was not ON before |
| NetIfRuns.RestorationOverRuns | network_application/connsel/connsel_netif.c:67-88 | in every such run each OFF to ON tick first re-adds exactly the owed routes in their original order and touches no other device |
| NetIfRuns.FallLeavesOthers | network_application/connsel/connsel_netif.c:57-65 | in every such run each ON to OFF tick leaves no eth0 row, keeps all other rows in order and owes exactly the removed rows |
| NetIfRuns.EpisodeCommandsIff | network_application/connsel/connsel_netif.c:57-88 | in any run whatever, after an ON to OFF ... OFF to ON episode the adds are those of the rows found at the fall if and only if the list was clean for them |
| Episodes.Taken | network_application/connsel/connsel_utils.c:160-184 | deletes about an interface take some of its routes, counted, and no others |
| Episodes.Brought | network_application/connsel/connsel_utils.c:127-157 | adding a list brings exactly the routes of its entries, counted |
| Episodes.TakenIsBroughtIff | network_application/connsel/connsel_utils.c:72-184 | whatever a list holds when it is saved into, what its deletes take is what its adds later bring back, counted, if and only if it was clean |
| Episodes.CleanIffOverwritten | network_application/connsel/connsel_netif.c:57-102 | in any run, the eth0 list is clean for given rows if and only if those rows are at least as many as, and have names at least as long as, those of every earlier fall not answered by a rise |
| Episodes.EpisodeRestoresIff | network_application/connsel/connsel_netif.c:57-88 | in any run whatever, an ON to OFF ... OFF to ON episode brings back exactly the routes it took, counted, if and only if, on the observed ticks, every earlier fall not answered by a rise is overwritten by the rows found at this one |
| Episodes.LiveIsSavedIff | network_application/connsel/connsel_utils.c:72-103 | the live entries after a save stand for exactly the saved rows, counted, if and only if the list was clean |
| Episodes.ListHoldsOwedIff | network_application/connsel/connsel_netif.c:57-102 | in any run, the list of an OFF episode under way says exactly what is owed, as commands and counted, under the condition of the next row |
| Episodes.RiseRestoresIff | network_application/connsel/connsel_netif.c:67-97 | every OFF to ON tick of every run, also one whose episode began from NONE or at init, re-adds exactly what is owed, as commands and as routes counted, if and only if every fall not answered by a rise when the episode began is overwritten by the owed rows |
| Episodes.StaleRouteFromNone | network_application/connsel/connsel_netif.c:90-96 | a run ON, OFF, NONE, OFF, ON in which nothing is owed and the route of the first fall is re-added |
| NetIfRuns.StaleRouteComesBack | network_application/connsel/connsel_netif.c:90-96 | a run with an observed OFF to NONE after which a later episode re-adds a route that was not among those just removed |
| NetIfRuns.TicksKeepOthers | network_application/connsel/connsel_netif.c:51-185 | no tick of either interface, in any state, touches another device's rows |
| NetIfRuns.EthActsIff | network_application/connsel/connsel_netif.c:57-102 | a tick of any run issues a command if and only if it is ON to OFF with a row in the table or an entry left in the list, or OFF to ON with an entry in the list; every other tick leaves table and list alone |
| NetIfRuns.WlanInvariant | network_application/connsel/connsel_netif.c:142-185 | in every run the counter stays within 0..20 and the wlan0 list is unused after every tick |
| NetIfRuns.WlanTicksRefresh | network_application/connsel/connsel_netif.c:147-159 | in every run a wlan0 tick is either a whole refresh of the present table or no command at all |
| NetIfRuns.RefreshesExactlyWhen | network_application/connsel/connsel_netif.c:147-184 | a tick of any run issues exactly the commands of a refresh of the table found if it stays ON and the number of ticks that stayed ON just before it is a multiple of 20, and no command otherwise |
| NetIfRuns.RefreshEveryPeriod | network_application/connsel/connsel_netif.c:149-158 | of consecutive ON to ON ticks exactly those whose number is a multiple of 20 refresh, beginning with the first |
| NetIfRuns.RefreshRate | network_application/connsel/connsel_netif.c:142-185 | n consecutive ON to ON ticks after entering ON perform exactly ceil(n / 20) refreshes |
| Daemon.RunInv | network_application/connsel/connsel_main.c:37-66 | in every interleaving, whether or not the handler's join waits, the log holds the inits so far, the calls and returns of the run hooks of whole passes and of the pass under way, and the deinits so far, and cancellation is disabled during passes; where the join waits the log is these in this order |
| Daemon.CancelledBetweenPasses | network_application/connsel/connsel_main.c:43-63 | when the thread has died every interface has run equally often, and at most one pass was completed after the cancellation request |
| Daemon.NothingRunsAfterDeinit | network_application/connsel/connsel_main.c:142-160 | where the handler's join waits, no call or return of a run hook follows a deinit in any reachable log, and no init follows a run |
| Daemon.OrderlyExit | network_application/connsel/connsel_main.c:142-160 | every orderly exit has run each init once and each deinit once and has called connsel_removeInstance; where the handler's join waits the thread is dead and exactly whole passes lie between |
| Daemon.HooksInOrder | network_application/connsel/connsel_main.c:142-153 | in every reachable log the init hooks stand in table order and the deinit hooks in reverse table order, none twice, and only hooks the table has |
| Daemon.WholePasses | network_application/connsel/connsel_main.c:43-63 | whenever the thread has died, the calls and returns of run hooks are whole passes, one after another |
| Daemon.RunsInOrder | network_application/connsel/connsel_main.c:48-54 | a pass is hook after hook in table order, each call followed by its return |
| Daemon.JoinReturnsIff | network_application/connsel/connsel_main.c:142-153 | from the moment the handler's join returns, no way on calls a run hook after a deinit hook, or has one still running then, if and only if there is no deinit hook, or no run hook is in progress and the thread will not call another one, as when it is dead |
| Daemon.ShutdownOrderedIff | network_application/connsel/connsel_main.c:142-153 | over all interleavings no run hook is ever called, or still running, after a deinit hook if and only if the handler's join waits or one of the two kinds of hook is absent |
| Daemon.ConnselOrderedIff | network_application/connsel/connsel_netif.c:188-203 | for the table of eth0 and wlan0 this is so if and only if the join waits |
| Daemon.Overtaken | network_application/connsel/connsel_main.c:142-153 | a run in which a run hook goes on, or is called, after a deinit hook, from any state in which the join has returned and the thread still runs |
| Daemon.AbruptExit | network_application/connsel/connsel_main.c:133-140 | a segmentation-fault exit deinitialises nothing and does not call connsel_removeInstance; main never passes its own join |
| Daemon.CancellationProgress | network_application/connsel/connsel_main.c:37-66 | with a cancellation pending, every step of the thread brings it nearer to its end |
| Daemon.Connsel.InitAll | network_application/connsel/connsel_main.c:216-222 | the init loop calls the hooks present, in table order |
| Daemon.Connsel.RunPass | network_application/connsel/connsel_main.c:48-54 | one pass calls the run hooks present, one after another in table order |
| Daemon.Connsel.DeinitAll | network_application/connsel/connsel_main.c:147-153 | the deinit loop calls the hooks present, in reverse table order |
| SqlRows.GetSqlDatas | library/libsql/sqllib.c:396-585 | the returned buffer is the row count followed by every row's header and tagged cells, and the result is the maximum id itself if it fits an int, its low 32 bits if not, and -1 without an integer id |
| SqlRows.NullCellBytes | library/libsql/sqllib.c:485-496 | a NULL is eight zero bytes |
| SqlRows.AddRow | library/libsql/sqllib.c:474-563 | one turn of the row loop extends the output by exactly that row, with or without the four bytes of the buffer's own header |
| SqlRows.FillRow | library/libsql/sqllib.c:482-548 | the cells of one row are written one after another at the cursor, which ends at the row's size |
| SqlRows.PatchTotal | library/libsql/sqllib.c:575-576 | the last write replaces the first four bytes by the row count |
| SqlRows.ClearScratch | library/libsql/sqllib.c:565-568 | the scratch buffer is all zeros between rows |
| SqlDecode.DecodesIff | library/libsql/sqllib.c:474-576 | decoding the buffer gives back the result set, without REAL and BLOB columns and with integers cut to 32 bits, if and only if the first row has no REAL or BLOB column |
| SqlDecode.DecodesExactlyIff | library/libsql/sqllib.c:474-576 | decoding gives back exactly the result set if and only if every cell is NULL, a TEXT or an INTEGER that fits 32 bits |
| SqlDecode.FirstTag | library/libsql/sqllib.c:138-157 | what stands at offset 8 of the buffer, and when those bytes exist |
| SqlDecode.GetSqlDataInt | library/libsql/sqllib.c:125-159 | returns the first cell if it is an integer and -1 on a mismatch or without a row, also where the first cell is REAL or BLOB |
| SqlDecode.GetSqlDataStr | library/libsql/sqllib.c:169-204 | returns the first cell if it is a text and otherwise nothing |
| SqlDecode.LookupReadsExistIff | library/libsql/sqllib.c:138-202 | all bytes the lookups read, the type, the int and the text with its terminator, exist if and only if there is a row and its cell is not the only one and REAL or BLOB; a non-negative result guarantees a row |
| SqlDecode.LookupsAgreeWithDecoding | library/libsql/sqllib.c:138-202 | both lookups return the first cell of the fully decoded buffer, or the mismatch result |
| SqlDecode.LookupsWithoutId | library/libsql/sqllib.c:149-151 | without a non-negative id, as on an empty table, the lookups return -1 and nothing |
| SqlDecode.LookupsReadBytes | library/libsql/sqllib.c:138-202 | with one they return the value at offset 12 if the type at offset 8 fits, and -1 or nothing otherwise |
| SqlDecode.IntLookupAgreesIff | library/libsql/sqllib.c:138-157 | the bytes at the fixed offsets say the first cell or the mismatch result if and only if that cell is known or the second row's is not |
| SqlDecode.RealFirstDoesNotDecode | library/libsql/sqllib.c:482-552 | a result of one REAL cell does not decode |
| SqlDecode.RealThenTextReadsTwo | library/libsql/sqllib.c:138-157 | a REAL cell with a text row behind it is read as the number 2 |
| SqlText.Database.ExecSqlCmd | library/libsql/sqllib.c:61-93 | a command takes effect once if and only if one of at most 777 attempts succeeds; otherwise -1 and no effect |
| SqlWriters.AddSqlData | library/libsql/sqllib.c:589-688 | prints the INSERT of exactly the fields its walk reads and executes it; an unknown type returns -1 and executes nothing |
| SqlWriters.UpdateSqlData | library/libsql/sqllib.c:946-1016 | prints the UPDATE of exactly the fields its walk reads, with count and types read from one char; a type unknown as read from one char returns -1 and executes nothing |
| SqlWriters.PrintAssignments | library/libsql/sqllib.c:1041-1075 | the assignment part of a conditional update; an unknown type prints no value and goes on |
| SqlWriters.SetNeverStops | library/libsql/sqllib.c:1041-1075 | no field type ends the walk over the assignments |
| SqlWriters.UpdateByCondition | library/libsql/sqllib.c:1018-1141 | with conditions prints assignments and conditions; a zero condition count or an unknown type returns -1; without a condition updates everything |
| SqlWriters.DeleteByCondition | library/libsql/sqllib.c:1145-1225 | prints the DELETE of exactly the conditions its walk reads; no query, a zero count or an unknown type returns -1 and executes nothing |
| SqlTheorems.FieldsRoundTrip | library/libsql/sqllib.c:617-665 | a walk over encoded fields sees those fields and stops at what follows them |
| SqlTheorems.AddReadsAll | library/libsql/sqllib.c:617-673 | add_sqldata consumes every well-formed buffer exactly to its end and sees exactly its fields |
| SqlTheorems.FieldStopsIff | library/libsql/sqllib.c:640-664 | a field ends a walk if and only if the walk stops at unknown types and the type is unknown as it is read, in full or by its low byte |
| SqlTheorems.FieldsThen | library/libsql/sqllib.c:617-665 | every walk that steps over them takes well-formed fields as they are and goes on behind them |
| SqlTheorems.UnknownTypeStopsIff | library/libsql/sqllib.c:1079-1126 | for each of the four walks, after some well-formed fields that it steps over: the walk ends at the next field, whatever follows, if and only if it stops at unknown types and the type is unknown as it is read |
| SqlTheorems.FourWalks | library/libsql/sqllib.c:1046-1068 | what each of the four walks does at a field of any type: add_sqldata and the conditions stop at all but 1 and 2, update_sqldata at all whose low byte is neither, and the assignments of a conditional update go on without a value |
| SqlTheorems.UnknownValueIsEmpty | library/libsql/sqllib.c:1041-1075 | of such a field a conditional update prints the name and the equals sign only |
| SqlTheorems.CharValueIs | library/libsql/sqllib.c:965 | a char read as a number is the byte itself, or the same modulo 256 between -128 and 127 |
| SqlTheorems.WideTypeIsCut | library/libsql/sqllib.c:971-994 | a type of 257, which add_sqldata refuses and update_sqldata executes as an integer |
| SqlTheorems.UpdateAgreesIff | library/libsql/sqllib.c:965-1002 | update_sqldata visits the same fields and ends at the same byte as add_sqldata if and only if the count is below 128 (256 where char is unsigned) |
| SqlTheorems.NarrowScanAgrees | library/libsql/sqllib.c:965-1002 | with the same count, reading types from one char makes no difference on a buffer whose types are known |
| SqlTheorems.ConditionsReadIff | library/libsql/sqllib.c:1079-1126 | a condition list is read in full, in order, if and only if no text value stands before the last condition; otherwise the walk stops |
| SqlTheorems.ConditionBufferIff | library/libsql/sqllib.c:1163-1209 | the same for the whole condition buffer with its count |
| SqlTheorems.StuckAtText | library/libsql/sqllib.c:1106-1113 | after a text that is not stepped over, the walk takes the text for a name and the next name for a type, which is never a known one |
| SqlTheorems.TooManyForOneChar | library/libsql/sqllib.c:965-1002 | 128 fields, of which update_sqldata does not see what add_sqldata sees |
| SqlTheorems.TextBeforeLastStops | library/libsql/sqllib.c:1079-1126 | two conditions, the first with a text, which stop the walk |
| SqlParse.InsertReadBackIff | library/libsql/sqllib.c:617-673 | a reader with SQL's doubled quotes recovers table, names and values from a printed INSERT if and only if all values are printable: numbers, or texts without a quote |
| SqlParse.UpdateReadBackIff | library/libsql/sqllib.c:965-1002 | the same for an unconditional UPDATE |
| SqlParse.UpdateWhereReadBackIff | library/libsql/sqllib.c:1018-1141 | the same for an UPDATE with conditions |
| SqlParse.DeleteReadBackIff | library/libsql/sqllib.c:1163-1209 | the same for a DELETE |
| SqlParse.QuotesLost | library/libsql/sqllib.c:650-653 | a text with a quote in it is never read back from its printed form, whatever follows |
| SqlParse.AddSaysItsFieldsIff | library/libsql/sqllib.c:589-688 | for every field list with identifier names, add_sqldata consumes its buffer and prints a command, which says exactly those fields if and only if no text holds a quote |
| SqlParse.ApostropheIsLost | library/libsql/sqllib.c:650-653 | a text with one apostrophe, which the printed command does not say |
| SqlParse.UpdateSaysItsFieldsIff | library/libsql/sqllib.c:946-1016 | the same for update_sqldata while the count fits its char |
| SqlParse.ConditionsSayThemselvesIff | library/libsql/sqllib.c:1079-1209 | conditional delete and update are executed if and only if no text stands before the last condition, and then both say the same conditions, all of them in order, if and only if no text holds a quote |
| OptionLists.PrintList | library/libcm/cm_venc_option.c:317-351 | a list is printed as the first occurrences of its values up to the sentinel |
| OptionLists.PrintOnce | library/libcm/cm_product_option.c:461-487 | all rates are printed, each once, in order of first occurrence |
| OptionLists.PrintZeroAware | library/libcm/cm_res_option.c:101-126 | all rates are printed, but only the first zero |
| OptionLists.ParseOver | library/libcm/cm_res_option.c:32-41 | elements of the message overwrite the array; missing and null ones leave it |
| OptionLists.ParseOrZero | library/libcm/cm_res_option.c:18-31 | elements of the message overwrite the array; missing and null ones write zero |
| OptionLists.Fill | library/libcm/cm_venc_option.c:505-511 | a list is initialised to its sentinel |
| OptionLists.DedupElements | library/libcm/cm_venc_option.c:334-346 | what is printed has no repetitions and exactly the values of the list |
| OptionLists.DedupKeepsOrder | library/libcm/cm_venc_option.c:334-346 | values are printed in the order in which they first occur |
| OptionLists.ReprintsIff | library/libcm/cm_venc_option.c:106-122 | a list printed from one array, parsed over another and printed again is the same if and only if what the other holds behind it, up to its sentinel, repeats printed values |
| OptionLists.ReprintsOverItself | library/libcm/cm_venc_option.c:106-122 | over the array it was printed from, a list always reprints |
| OptionLists.ListExactIff | library/libcm/cm_venc_option.c:106-122 | reading a printed list back over its own array changes nothing if and only if all repetitions stand behind the new values |
| OptionLists.NormalIsPadded | library/libcm/cm_venc_option.c:491-512 | parsed into a fresh array, a list becomes its first occurrences padded with the sentinel, prints the same, and stays so |
| OptionLists.NormalRatesStable | library/libcm/cm_product_option.c:150-163 | a product option's rates become their first occurrences padded with zeros; printing them gains one zero unless there was one or all differed; a second pass changes nothing |
| OptionLists.ReprintsAllIff | library/libcm/cm_product_option.c:461-487 | rates printed from one array and parsed over another reprint if and only if what the other holds behind them repeats them |
| OptionLists.CoversAllFreshIff | library/libcm/cm_product_option.c:646-660 | over a freshly initialised array they do if and only if there was a zero or all differed |
| OptionLists.ResRatesRoundTrip | library/libcm/cm_res_option.c:18-31 | print then parse of a res option's rates always keeps their multiset, the order of the non-zero ones and what is printed, and gives back the array if and only if the zeros after the first one stand at the end |
| Slots.SlotArray.Parse | library/libcm/cm_venc_option.c:145-181 | one level of slots in place: the index, then all slots or the addressed one |
| Slots.SlotArray.Comp | library/libcm/cm_venc_option.c:409-470 | one level of slots is printed with its index and all slots or the addressed one |
| Slots.SlotsReceive | library/libcm/cm_venc_option.c:145-181 | all slots receive their own element, or the addressed one the first element, or nothing where the list ends; the other slots stay |
| Slots.AbsentMembers | library/libcm/cm_venc_option.c:145-181 | a message without an index acts as if it carried the stored one, one without slots changes the index only, and no message changes nothing |
| Slots.PrintedSlots | library/libcm/cm_venc_option.c:409-470 | a printed level parsed over any other one brings to the addressed slot, or to each slot, what was printed for that slot, and leaves every other slot |
| Slots.ParseArray | library/libcm/cm_product_option.c:182-196 | every element is parsed over with its element of the message |
| Slots.CompArray | library/libcm/cm_product_option.c:541-575 | every element is printed, in order |
| Slots.AllIsEach | library/libcm/cm_venc_option.c:164-181 | a message to all slots has the same effect as single-slot messages of its elements sent in any order, but for the index left behind |
| Slots.CellMessageChanges | library/libcm/cm_venc_option.c:145-181 | a message with both indices changes the addressed cell and the two indices, and nothing else |
| Slots.CellMessagesCommute | library/libcm/cm_res_option.c:50-86 | messages to different cells commute on the data |
| Slots.SlotsReprint | library/libcm/cm_venc_option.c:409-470 | a level of slots reprints if each addressed element does |
| Slots.EachReprintsIff | library/libcm/cm_product_option.c:182-196 | a list of elements reprints over another one if and only if each element does over its counterpart |
| VencOption.FindName | library/libcm/cm_venc_option.c:83-88 | the position of the first equal name, or none for an unknown name |
| VencOption.NameReadsBack | library/libcm/cm_venc_option.c:14-34 | every value in a name table reads back from its name |
| VencOption.CompNames | library/libcm/cm_venc_option.c:317-351 | a list is printed as the distinct names of its values up to the sentinel, without reading outside the table |
| VencOption.ParseNames | library/libcm/cm_venc_option.c:106-122 | named elements overwrite the array; unknown names and missing elements leave it |
| VencOption.DedupNames | library/libcm/cm_venc_option.c:334-346 | comparing printed names removes the same repetitions as comparing values |
| VencOption.NamesReprintIff | library/libcm/cm_venc_option.c:106-139 | the exact condition for a list of names to reprint over another array |
| VencOption.VencEntity.constructor | library/libcm/cm_venc_option.c:491-512 | a fresh entity is the initial one |
| VencOption.VencEntity.Init | library/libcm/cm_venc_option.c:491-512 | every number is 0, every profile 3 and every rate control mode 4, the NONE of their tables |
| VencOption.InitIsValid | library/libcm/cm_venc_option.c:514-534 | the initial option is valid, holds initial entities, and addresses the first slots |
| VencOption.VencEntity.Parse | library/libcm/cm_venc_option.c:72-143 | a partial message merged into an entity in place; null changes nothing |
| VencOption.VencMerges | library/libcm/cm_venc_option.c:72-143 | leaf by leaf, every member of a message replaces its own field, nested members and list elements included, an absent one leaves it, and an unknown name counts as absent |
| VencOption.VencEntity.Comp | library/libcm/cm_venc_option.c:250-407 | the whole entity as a message, with all table lookups inside the tables |
| VencOption.ParseKeepsValid | library/libcm/cm_venc_option.c:72-143 | no message takes an entity outside the values that can be printed |
| VencOption.ParsePrinted | library/libcm/cm_venc_option.c:72-143 | parsing a printed entity over another one gives the printed scalars and both lists laid over the other's |
| VencOption.VencReprintsIff | library/libcm/cm_venc_option.c:250-407 | an entity printed, parsed over another and printed again is the same message if and only if both leftover tails repeat printed values |
| VencOption.VencReprints | library/libcm/cm_venc_option.c:250-407 | over itself it always is |
| VencOption.VencNormalises | library/libcm/cm_venc_option.c:491-512 | parsed into a fresh entity both lists come out in normal form; that is idempotent and prints the same |
| VencOption.StreamReprints | library/libcm/cm_venc_option.c:409-443 | a stream prints, parses over itself and prints the same |
| VencOption.OptionReprints | library/libcm/cm_venc_option.c:445-470 | print, parse over the same option, print again gives the same message for every valid option, with any stream and encoder index |
| VencOption.RunsStayPrintable | library/libcm/cm_venc_option.c:145-181 | from init_venc_option, no run of messages with indices in range leads to an option that cannot be printed or whose printing is not stable |
| ResOption.ResEntity.Parse | library/libcm/cm_res_option.c:14-48 | a partial message merged into an entity in place |
| ResOption.ResMerges | library/libcm/cm_res_option.c:14-48 | leaf by leaf, present members replace their fields and absent ones leave them; within present maximum rates a missing or null element writes a zero |
| ResOption.ResEntity.Comp | library/libcm/cm_res_option.c:88-182 | the whole entity as a message |
| ResOption.ResReprintsIff | library/libcm/cm_res_option.c:88-182 | a resolution reprints over another one if and only if the other's leftover frame rates repeat printed ones; the other's maximum rates never matter |
| ResOption.ResReprints | library/libcm/cm_res_option.c:88-182 | over itself it always reprints |
| ResOption.ResExactIff | library/libcm/cm_res_option.c:14-48 | reading back what was printed leaves the whole entity unchanged if and only if its zeros and its repetitions stand last |
| ResOption.StreamReprints | library/libcm/cm_res_option.c:184-218 | a stream prints, parses over itself and prints the same |
| ResOption.OptionReprints | library/libcm/cm_res_option.c:220-245 | print, parse over the same option, print again gives the same message for every valid option |
| ResOption.RunsStayPrintable | library/libcm/cm_res_option.c:50-86 | from any valid option, every run of messages with indices in range leads to an option whose printing is stable |
| ProductOption.RatesEntity.constructor | library/libcm/cm_product_option.c:646-660 | a fresh resolution is the initial one |
| ProductOption.RatesEntity.Init | library/libcm/cm_product_option.c:646-660 | zeros everywhere |
| ProductOption.RatesEntity.Parse | library/libcm/cm_product_option.c:150-180 | a partial message merged into a resolution in place; missing maximum rates stay |
| ProductOption.RatesMerge | library/libcm/cm_product_option.c:150-180 | leaf by leaf, present members and elements replace their values and absent ones leave them |
| ProductOption.VideoMerges | library/libcm/cm_product_option.c:182-196 | each resolution and each encoder receives its own element, or nothing |
| ProductOption.ProductMerges | library/libcm/cm_product_option.c:198-218 | each video option receives its own element, or nothing; the video type changes only to a known one |
| ProductOption.RatesEntity.Comp | library/libcm/cm_product_option.c:448-539 | the whole resolution as a message |
| ProductOption.ProductEntity.constructor | library/libcm/cm_product_option.c:675-684 | a fresh product option is the initial one |
| ProductOption.ProductEntity.Init | library/libcm/cm_product_option.c:675-684 | the normal video type and four initial video options |
| ProductOption.ProductEntity.Parse | library/libcm/cm_product_option.c:198-218 | a partial message merged into a product option in place; an unknown video type is ignored |
| ProductOption.ProductEntity.Comp | library/libcm/cm_product_option.c:577-601 | the whole product option as a message |
| ProductOption.ResReprintsIff | library/libcm/cm_product_option.c:448-539 | the exact condition for a resolution to reprint over another one |
| ProductOption.ResNormalises | library/libcm/cm_product_option.c:150-180 | parsed into a fresh resolution both lists come out in normal form, and stay so |
| ProductOption.VideoReprintsIff | library/libcm/cm_product_option.c:541-575 | the exact condition for a video option, element by element |
| ProductOption.VideoNormalises | library/libcm/cm_product_option.c:541-575 | parsed into a fresh video option every element comes out in normal form, and stays so |
| ProductOption.ProductReprintsIff | library/libcm/cm_product_option.c:577-601 | a product option printed, parsed over another one and printed again gives the same message if and only if every leftover tail of every element repeats printed values |
| ProductOption.ProductReprints | library/libcm/cm_product_option.c:577-601 | over itself every valid product option reprints |
| ProductOption.NormaliseIsIdempotent | library/libcm/cm_product_option.c:623-684 | print then parse into a fresh product option gives the normal form of the whole nested option, and doing it twice changes no more |
| ProductOption.NormalisePrintsSameIff | library/libcm/cm_product_option.c:461-487 | the first pass keeps what is printed if and only if every resolution has a zero among its maximum rates or eight different ones |
| ProductOption.RunsStayPrintable | library/libcm/cm_product_option.c:198-218 | from init_product_option, every run of messages leads to an option that can be printed, prints stably and normalises to its normal form |
| Audio.AdoAttr.constructor | library/libado/ado_ctrl.c:40-51 | an empty list and volume zero |
| Audio.AdoAttr.RegCallback | library/libado/ado_ctrl.c:287-318 | appends one new node at the tail of the linked list and keeps all nodes before it; a null callback is refused with -EINVAL |
| Audio.AdoAttr.SetVolume | library/libado/ado_ctrl.c:193-213 | above 100 -EINVAL and no call; otherwise each available setter is called once in list order, the last result returned (-1 without setters) and the volume stored |
| Audio.AdoAttr.GetDbGain | library/libado/ado_ctrl.c:215-235 | out of range -EINVAL, before the list is looked at, no provider -ENOENT, both with gain 0; otherwise exactly one call, to the earliest provider, whose answer is returned |
| Audio.System.RegisterCallback | library/libado/ado_ctrl.c:657-664 | refused on a closed system; otherwise as above, and the new node is accounted for |
| Audio.System.RegisterCodecs | library/libado/ado_ctrl.c:126-186 | the callbacks of the configured codecs that are loaded and known end up in the list in order, and the result is that of the last loaded codec |
| Audio.System.InitSystem | library/libado/ado_ctrl.c:356-369 | -EBUSY and no change on an open system; otherwise an open system with volume zero and the codecs' callbacks |
| Audio.System.CloseSystem | library/libado/ado_ctrl.c:396-414 | frees every node of the list exactly once, in order, relies on nothing in a node after freeing it, and leaves the system closed with nothing unfreed |
| Audio.System.SetSystemVolume | library/libado/ado_ctrl.c:421-428 | refused on a closed system; otherwise as the volume setting of the list |
| Audio.System.GetSystemDbGain | library/libado/ado_ctrl.c:648-651 | the gain of an open system's earliest provider, or the error; volumes out of range are refused on a closed system too |
| Audio.OpenIff | library/libado/ado_ctrl.c:356-414 | over every run of operations the system is open if and only if it was initialised since it was last closed |
| Audio.SessionContents | library/libado/ado_ctrl.c:287-414 | over every run, an open system's list is its codecs' callbacks followed by every accepted registration in order, and its volume the last one in range |
| Audio.NoNullCallback | library/libado/ado_ctrl.c:292-294 | over every run no null callback is ever in the list |
| Audio.SetterCallsAre | library/libado/ado_ctrl.c:202-208 | entry by entry, one more callback adds one call at the end, to its own setter and with the same volume, if it has a setter, and none otherwise |
| Audio.CodecsOneByOne | library/libado/ado_ctrl.c:126-186 | codec by codec, one more configured codec adds its callback at the end if its driver is loaded and its name known, and decides the status if its driver is loaded |
| Audio.ProviderIsEarliest | library/libado/ado_ctrl.c:226-232 | the provider asked for a gain is the first one in the list, and there is none if and only if no entry has one |

## Left out

- Routes.Kernel.System: the kernel's own refusal of a route, for instance of a duplicate, is not modelled; every add succeeds, and a delete without a matching row does nothing.
- Routes.SaveRouteList: more than four rows of an interface overrun the C array, which is a precondition here; parsing the text of /proc/net/route is left out, and rows are given as values.
- NetIf.Eth0.Run: udhcpc, the static address and the sleeps after a restore are changes of the table between ticks, and the observed state is a parameter; reading /sys/class/net is left out.
- Daemon.AbruptExit: says that connsel_removeInstance is not called; the file lock itself, which the kernel releases when the process ends, is not modelled.
- Daemon.RunInv: one signal, handled in the main thread after the thread was created; nested signals and a failing pthread_setcancelstate are not covered, nor are the messages to the log.
- SqlRows.GetSqlDatas: the query is given as its list of rows and the cell of MAX(id); SQLite itself, opening the file, the text of the query and failing allocations are left out.
- SqlText.Append: sprintf onto its own buffer is read as appending.
- SqlText.Database.ExecSqlCmd: the outcome of each attempt is a parameter, and the locks, which are stubs, are left out.
- Slots.ParseSlots: an index outside the slots is undefined in C; the function gives it no effect, and the methods exclude it.
- Slots.SlotArray.Parse: the slots of a level are an array of values; nested C structures are not separate objects, so a lower level is a value that is replaced.
- ProductOption.ProductEntity.Parse: the four video options are values in an array; below it only the resolution and the encoder entity are also modelled in place.
- VencOption.NameOf: a value outside its table is undefined in C; the function gives it no text, and the methods exclude it.
- Audio.System.GetSystemDbGain: the C code reads a null pointer when the system is closed and both volumes are in range; that case is excluded by a precondition.
- Audio.System.InitSystem: the configured codecs, whether their driver is loaded and which callbacks they stand for are a parameter; ALSA, ioctl, formats, rates and the file threads of ado_ctrl.c are left out.
- json-c objects, their memory and failing allocations; the length of a string object that guards an empty block.
- The other files of libcm, which copy field by field and would add only easy members.
- The lookups and updates of sqllib.c that take an id or a protocol, which print one fixed command each.
- ws_discovery, anr.c, GPIO, PWM, time zone, ip_assign and the sample programs.
