# Threads view of the debugger front-end, modelled in Dafny

The threads view of the debugger front-end lists the threads of the debugged process in a
three-column table (PID, Status, Path), filters it by a case-insensitive text, and switches
the debugger to a thread when its row is activated. This project models its refresh and
table logic from `src/widgets/ThreadsWidget.cpp`:

- `translateStatus`, the status-code-to-label mapping (module `ThreadStatus`);
- `setThreadsGrid`, the positional reconciliation of the item table with a freshly fetched
  thread list (`ThreadsView.ThreadsWidget.SetThreadsGrid`, specified by the functions of
  module `ThreadTable`);
- `updateContents`, the refresh gate every engine notification runs
  (`ThreadsView.ThreadsWidget.UpdateContents`);
- `onActivated`, the activation handler with its search for the selected id
  (`ThreadsView.ThreadsWidget.OnActivated`);
- `ThreadsFilterModel::filterAcceptsRow` and its case-insensitive setting (module
  `ThreadsFilter`).

The item table (a `QStandardItemModel`) is the class `ItemModel.StandardItemModel`, a
sequence of rows of three cells; a cell is missing (`Blank`) or an item with its text and
whether its font is bold. `setItem` past the last row grows the table with blank rows, and
`removeRows` refuses, changing nothing, a count below one or a range past the end, as Qt
does. The debugger engine is the class `DebugSession.DebugCore`: whether it is debugging,
whether a debug task is running and which threads a fetch returns are fields, and the
fetches made and the thread-switch commands issued are recorded. The refresh deferrer's
answer is a boolean parameter. The PID column is written as decimal text and read back with
`toInt` semantics (module `Decimal`). Module `Scenarios` works through a two-thread process,
a table shrinking from five rows to two, an empty session and the activation of a thread
that has exited.

The status codes are the engine's `RzDebugPidState` values: `'s'` stopped, `'r'` running,
`'S'` sleeping, `'z'` zombie, `'d'` dead, `'R'` raised event. The header defining them,
`rz_debug.h`, is not part of this model; the proofs use only that the six codes are
distinct.

Three points of the code's behaviour worth noting:

- With no debugging session the refresh empties the table and leaves the view's disabled
  flag as it was; it does not disable the view.
- The filter has no special case for an empty text: an empty text is a substring of every
  column, so every row passes (`ThreadsFilter.EmptyTokenAcceptsEveryRow`).
- The status is a character, not a closed set of codes; every other character is shown as
  "Unknown status".

## Model

| member | source | states |
|---|---|---|
| ThreadStatus.TranslateStatus | src/widgets/ThreadsWidget.cpp:85-103 | the label is "Unknown status" exactly when the code is none of the six known ones; a known code's label reads back as that code |
| ThreadStatus.SameLabelIff | src/widgets/ThreadsWidget.cpp:85-103 | two codes get the same label iff they are equal or both unknown |
| ThreadStatus.KnownStatusLabels | src/widgets/ThreadsWidget.cpp:87-99 | stop, run, sleep, zombie, dead and raised map to "Stopped", "Running", "Sleeping", "Zombie", "Dead", "Raised event" |
| Decimal.NatToDecimal | src/widgets/ThreadsWidget.cpp:117 | the decimal text of an id is non-empty, all digits, without leading zeros |
| Decimal.DecimalRoundTrip | src/widgets/ThreadsWidget.cpp:149 | reading a PID cell with toInt gives back the id it was written from, negative ids included |
| Decimal.IntToDecimalInjective | src/widgets/ThreadsWidget.cpp:117 | distinct ids are written as distinct texts |
| DebugSession.DebugCore.GetProcessThreads | src/widgets/ThreadsWidget.cpp:110 | a fetch returns the engine's current thread list and is counted |
| DebugSession.DebugCore.SetCurrentDebugThread | src/widgets/ThreadsWidget.cpp:155 | a switch command for tid is appended to the command log |
| ItemModel.ColumnIndex | src/widgets/ThreadsWidget.cpp:12-16 | the columns are numbered 0, 1, 2 in the order PID, Status, Path |
| ItemModel.SetCell | src/widgets/ThreadsWidget.cpp:123-125 | setItem replaces one cell of row i, grows the table with blank rows up to row i, and leaves every other row as it was |
| ItemModel.StandardItemModel.constructor | src/widgets/ThreadsWidget.cpp:23 | a new table has the requested number of rows, all blank |
| ItemModel.StandardItemModel.SetItem | src/widgets/ThreadsWidget.cpp:123-125 | the table after setItem is SetCell of the table before |
| ItemModel.StandardItemModel.RemoveRows | src/widgets/ThreadsWidget.cpp:130-132 | removeRows succeeds iff 1 <= count and the range exists, then drops exactly those rows; otherwise nothing changes |
| ThreadTable.WriteThread | src/widgets/ThreadsWidget.cpp:111-125 | after the three setItem calls for thread t, row i is t's rendering and no other existing row changed |
| ThreadTable.WriteThreadsEffect | src/widgets/ThreadsWidget.cpp:110-127 | after the loop, rows before i are untouched, rows i..|ts|-1 render the threads in fetch order, rows past |ts| are the old ones |
| ThreadTable.ReconciledShows | src/widgets/ThreadsWidget.cpp:107-132 | after reconciliation the table has exactly |ts| rows, row k rendering thread k, whatever the table held before (one blank row, more rows, none) |
| ThreadTable.ReconciledForgetsPrior | src/widgets/ThreadsWidget.cpp:107-132 | the reconciled table does not depend on the table before |
| ThreadTable.ReconciledIdempotent | src/widgets/ThreadsWidget.cpp:107-132 | reconciling twice with the same threads gives the table of reconciling once |
| ThreadTable.BoldIffCurrent | src/widgets/ThreadsWidget.cpp:108-122 | row k is bold iff thread k is current; no weight carries over from the row before |
| ThreadTable.RowContents | src/widgets/ThreadsWidget.cpp:111-125 | row k shows thread k's id (reading back as the id), its translated status and its path |
| ThreadsFilter.FilterAcceptsRow | src/widgets/ThreadsWidget.cpp:169-180 | the row is accepted iff at least one of its three columns contains the filter text, ignoring case |
| ThreadsFilter.Visible | src/widgets/ThreadsWidget.cpp:169-180 | the filtered view holds only rows of the table accepted by the filter, and every accepted row of the table |
| ThreadsFilter.VisibleOfConcat | src/widgets/ThreadsWidget.cpp:169-180 | filtering keeps table order: the view of two consecutive parts of the table is the view of the first followed by the view of the second |
| ThreadsFilter.VisibleOfOne | src/widgets/ThreadsWidget.cpp:169-180 | a single row is shown exactly when the filter accepts it |
| ThreadsFilter.AcceptsIgnoresCase | src/widgets/ThreadsWidget.cpp:165 | upper- and lower-case forms of a filter text accept the same rows |
| ThreadsFilter.EmptyTokenAcceptsEveryRow | src/widgets/ThreadsWidget.cpp:172-176 | an empty filter text accepts every row |
| ThreadsFilter.VisibleWithEmptyToken | src/widgets/ThreadsWidget.cpp:169-180 | with an empty filter text the view shows the whole table |
| ThreadsView.FirstIndexOfPid | src/widgets/ThreadsWidget.cpp:153-158 | the search stops at the first thread with the selected id, or finds none when no thread has it |
| ThreadsView.SwitchCommands | src/widgets/ThreadsWidget.cpp:151-158 | an activation issues at most one switch command, for the selected id, and one exactly when that id is in the fetched list |
| ThreadsView.SelectedPidIsListed | src/widgets/ThreadsWidget.cpp:149 | activating a visible row of a table showing ts selects the id of a thread of ts whose row passes the filter |
| ThreadsView.UnfilteredActivationSelectsRowThread | src/widgets/ThreadsWidget.cpp:149 | with no filter text, activating row k selects thread k's id |
| ThreadsView.ActivationOfShownThreadSwitches | src/widgets/ThreadsWidget.cpp:149-158 | if the engine still lists the threads shown, activating a visible row issues exactly one command, for that row's thread |
| ThreadsView.ThreadsWidget.constructor | src/widgets/ThreadsWidget.cpp:23 | the table starts with one blank row and the view enabled |
| ThreadsView.ThreadsWidget.SetThreadsGrid | src/widgets/ThreadsWidget.cpp:105-132 | one fetch, then the table is the positional reconciliation of the old table with the fetched threads and shows exactly them |
| ThreadsView.ThreadsWidget.UpdateContents | src/widgets/ThreadsWidget.cpp:65-83 | deferrer refuses: nothing changes, no fetch; not debugging: table emptied, flag kept, no fetch; task in progress: view disabled, table kept, no fetch; otherwise table reconciled with one fetch and view enabled |
| ThreadsView.ThreadsWidget.OnActivated | src/widgets/ThreadsWidget.cpp:144-161 | an invalid index changes nothing; a valid one fetches, logs the switch commands SwitchCommands gives for the selected id, then runs the refresh gate |
| Scenarios.TwoThreadTable | src/widgets/ThreadsWidget.cpp:107-132 | whatever the table held, reconciling with the two threads leaves exactly their two rendered rows |
| Scenarios.TwoThreadRows | src/widgets/ThreadsWidget.cpp:114-125 | a stopped thread and a current running thread give a normal "Stopped" row and a bold "Running" row |
| Scenarios.FiveRowsShrinkToTwo | src/widgets/ThreadsWidget.cpp:129-132 | a five-row table reconciled with two threads has two rows |
| Scenarios.InactiveSessionEmptiesTable | src/widgets/ThreadsWidget.cpp:71-74 | with no debugging session, a refresh of the new view empties its initial table, fetches nothing and leaves the view enabled |
| Scenarios.StaleActivation | src/widgets/ThreadsWidget.cpp:151-160 | activating a row whose thread has exited issues no switch command and still refreshes the table to the remaining thread |
| Scenarios.FilterByPathKeepsBoth | src/widgets/ThreadsWidget.cpp:169-180 | filter "bin" keeps both rows of the two-thread table |
| Scenarios.FilterByIdKeepsOne | src/widgets/ThreadsWidget.cpp:169-180 | filter "101" keeps only the second row of the two-thread table |

## Left out

- Widget construction (headers, alignment, hidden vertical header, fonts), the Ctrl+F and
  Esc shortcuts, `resizeColumnsToContents` and re-binding the proxy with `setSourceModel`
  (lines 18-61, 134-135): presentation only.
- `fontsUpdatedSlot` (lines 139-142): it changes rendering only.
- Signal and slot wiring (lines 51-60): the five engine notifications all run
  `updateContents`, which is the one method `UpdateContents`; Qt's event loop is not modelled.
- The debugger engine: `currentlyDebugging`, `isDebugTaskInProgress` and the thread list are
  fields of `DebugCore`; `setCurrentDebugThread` only records the command and does not
  change the thread list the engine reports afterwards, whose update is engine behaviour.
- The refresh deferrer's policy and its later retry: its answer is the parameter
  `refreshAllowed` of `UpdateContents`, which `OnActivated` passes to its one refresh.
- The refreshes the engine's own notifications trigger after a thread switch: the engine's
  notifications are not modelled, so a switch command is followed only by the refresh
  `onActivated` makes itself.
- `qhelpers::filterStringContains` and the wildcard syntax of `setFilterWildcard`: a column
  matches when its text contains the filter text as a substring, ignoring ASCII case;
  wildcard characters are taken literally. The filter text is a parameter.
- Sorting in the proxy model: the view shows the filtered rows in table order.
- Unicode case folding: only ASCII letters are folded.
- DebugSession.DebugCore.GetProcessThreads: thread ids are unbounded integers, so the
  64-bit range of `st64` is not modelled.
- Decimal.DecimalRoundTrip: `toInt` is modelled as an optional sign followed by digits;
  surrounding whitespace and the overflow of a 64-bit id into the 32-bit `tid` (line 149)
  are not modelled.
- Fonts are modelled only by their bold flag.
