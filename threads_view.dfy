/** The threads view: keeps the item table in step with the debugger's thread list and
    turns the activation of a row into a thread-switch command. */
module ThreadsView {
  import opened Wrappers
  import opened Decimal
  import opened DebugSession
  import opened ItemModel
  import opened ThreadStatus
  import opened ThreadTable
  import opened ThreadsFilter

  /** An index into the filtered view, as the view reports an activated row. */
  datatype ModelIndex = InvalidIndex | Index(row: nat, column: Column)

  /** The position of the first thread whose id is tid. */
  function FirstIndexOfPid(threads: seq<ThreadSnapshot>, tid: int): (r: Option<nat>)
    ensures r.Some? ==> r.value < |threads| && threads[r.value].pid == tid
                        && forall k :: 0 <= k < r.value ==> threads[k].pid != tid
    ensures r.None? ==> forall k :: 0 <= k < |threads| ==> threads[k].pid != tid
  {
    if threads == [] then None
    else if threads[0].pid == tid then Some(0)
    else match FirstIndexOfPid(threads[1..], tid)
      case None => None
      case Some(k) => Some(k + 1)
  }

  /** The switch commands an activation of tid issues: one, for tid, when tid is one of the
      fetched threads, and none otherwise. */
  function SwitchCommands(threads: seq<ThreadSnapshot>, tid: int): (cmds: seq<int>)
    ensures |cmds| <= 1
    ensures cmds != [] <==> exists k :: 0 <= k < |threads| && threads[k].pid == tid
    ensures forall c :: c in cmds ==> c == tid
  {
    match FirstIndexOfPid(threads, tid)
    case Some(k) => [threads[k].pid]
    case None => []
  }

  /** The id read from the PID column of visible row `row`; a row past the end reads as
      no data, which converts to 0. */
  function SelectedPid(rows: seq<Row>, filterText: string, row: nat): int
  {
    var shown := Visible(rows, filterText);
    ToInt(if row < |shown| then CellText(shown[row].pid) else "")
  }

  /** Activating a visible row of a table that shows ts selects the id of one of the
      threads of ts whose row passes the filter. */
  lemma SelectedPidIsListed(rows: seq<Row>, ts: seq<ThreadSnapshot>, filterText: string, row: nat)
    requires Shows(rows, ts) && row < |Visible(rows, filterText)|
    ensures exists j :: 0 <= j < |ts| && SelectedPid(rows, filterText, row) == ts[j].pid
                        && Accepts(rows[j], filterText)
  {
    var shown := Visible(rows, filterText);
    assert shown[row] in rows;
    var j :| 0 <= j < |rows| && rows[j] == shown[row];
    RowContents(rows, ts, j);
  }

  /** With no filter text, activating row k of a table that shows ts selects thread k. */
  lemma UnfilteredActivationSelectsRowThread(rows: seq<Row>, ts: seq<ThreadSnapshot>, k: nat)
    requires Shows(rows, ts) && k < |ts|
    ensures SelectedPid(rows, "", k) == ts[k].pid
  {
    VisibleWithEmptyToken(rows);
    RowContents(rows, ts, k);
  }

  /** If the engine still reports the threads the table shows, activating a visible row
      issues exactly one switch command, for that row's thread. */
  lemma ActivationOfShownThreadSwitches(rows: seq<Row>, ts: seq<ThreadSnapshot>, filterText: string, row: nat)
    requires Shows(rows, ts) && row < |Visible(rows, filterText)|
    ensures SwitchCommands(ts, SelectedPid(rows, filterText, row)) == [SelectedPid(rows, filterText, row)]
  {
    SelectedPidIsListed(rows, ts, filterText, row);
  }

  class ThreadsWidget {
    const core: DebugCore
    const modelThreads: StandardItemModel
    var viewDisabled: bool

    /** The table starts with one row whose cells are all missing. */
    constructor (core: DebugCore)
      ensures this.core == core && fresh(modelThreads)
      ensures modelThreads.rows == [BlankRow] && !viewDisabled
    {
      this.core := core;
      modelThreads := new StandardItemModel(1);
      viewDisabled := false;
    }

    /** The four outcomes of a refresh attempt, from the table rows0, the disabled flag
        disabled0 and the fetch count fetches0 it started from. */
    ghost predicate RefreshedFrom(rows0: seq<Row>, disabled0: bool, fetches0: nat, refreshAllowed: bool)
      reads this, modelThreads, core
    {
      if !refreshAllowed then
        modelThreads.rows == rows0 && viewDisabled == disabled0 && core.fetchCount == fetches0
      else if !core.currentlyDebugging then
        modelThreads.rows == [] && viewDisabled == disabled0 && core.fetchCount == fetches0
      else if core.taskInProgress then
        modelThreads.rows == rows0 && viewDisabled && core.fetchCount == fetches0
      else
        modelThreads.rows == Reconciled(rows0, core.threads) && Shows(modelThreads.rows, core.threads)
        && !viewDisabled && core.fetchCount == fetches0 + 1
    }

    /** Fetches the threads and writes them into the table, row by row, in place. */
    method SetThreadsGrid()
      modifies modelThreads, core`fetchCount
      ensures modelThreads.rows == Reconciled(old(modelThreads.rows), core.threads)
      ensures Shows(modelThreads.rows, core.threads)
      ensures core.fetchCount == old(core.fetchCount) + 1
    {
      ghost var prior := modelThreads.rows;
      var i := 0;
      var bold := false;
      var threads := core.GetProcessThreads();
      while i < |threads|
        invariant 0 <= i <= |threads| && i <= |modelThreads.rows|
        invariant WriteThreads(modelThreads.rows, threads, i) == WriteThreads(prior, threads, 0)
        invariant core.fetchCount == old(core.fetchCount) + 1
      {
        var t := threads[i];
        var status := TranslateStatus(t.status);
        // One font object serves every row; only its weight is set per thread.
        bold := t.current;
        modelThreads.SetItem(i, PidColumn, Item(IntToDecimal(t.pid), bold));
        modelThreads.SetItem(i, StatusColumn, Item(status, bold));
        modelThreads.SetItem(i, PathColumn, Item(t.path, bold));
        i := i + 1;
      }
      // Remove the rows left over from a longer list.
      if modelThreads.RowCount() > i {
        var removed := modelThreads.RemoveRows(i, modelThreads.RowCount() - i);
      }
      ReconciledShows(prior, threads);
    }

    /** The refresh procedure every data notification of the engine runs. */
    method UpdateContents(refreshAllowed: bool)
      modifies this`viewDisabled, modelThreads, core`fetchCount
      ensures RefreshedFrom(old(modelThreads.rows), old(viewDisabled), old(core.fetchCount), refreshAllowed)
    {
      if !refreshAllowed {
        return;
      }
      if !core.currentlyDebugging {
        // Rows of an earlier debugging session go.
        var removed := modelThreads.RemoveRows(0, modelThreads.RowCount());
        return;
      }
      if core.taskInProgress {
        viewDisabled := true;
      } else {
        SetThreadsGrid();
        viewDisabled := false;
      }
    }

    /** A row of the view was activated: switch to its thread if the engine still lists
        it, then refresh. */
    method OnActivated(index: ModelIndex, filterText: string, refreshAllowed: bool)
      modifies this`viewDisabled, modelThreads, core`fetchCount, core`switchLog
      ensures index.InvalidIndex? ==>
                modelThreads.rows == old(modelThreads.rows) && viewDisabled == old(viewDisabled)
                && core.fetchCount == old(core.fetchCount) && core.switchLog == old(core.switchLog)
      ensures index.Index? ==>
                core.switchLog == old(core.switchLog)
                  + SwitchCommands(core.threads, SelectedPid(old(modelThreads.rows), filterText, index.row))
      ensures index.Index? ==>
                RefreshedFrom(old(modelThreads.rows), old(viewDisabled), old(core.fetchCount) + 1, refreshAllowed)
    {
      if index.InvalidIndex? {
        return;
      }
      var tid := SelectedPid(modelThreads.rows, filterText, index.row);
      var threads := core.GetProcessThreads();
      var i := 0;
      while i < |threads|
        invariant 0 <= i <= |threads|
        invariant forall k :: 0 <= k < i ==> threads[k].pid != tid
        invariant core.switchLog == old(core.switchLog)
        invariant core.fetchCount == old(core.fetchCount) + 1
        invariant modelThreads.rows == old(modelThreads.rows) && viewDisabled == old(viewDisabled)
      {
        if tid == threads[i].pid {
          core.SetCurrentDebugThread(tid);
          break;
        }
        i := i + 1;
      }
      UpdateContents(refreshAllowed);
    }
  }
}
