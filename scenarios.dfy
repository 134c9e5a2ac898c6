/** Worked cases: a two-thread process, a shrinking thread list, an empty session and an
    activation of a thread that has already gone. */
module Scenarios {
  import opened DebugSession
  import opened ItemModel
  import opened ThreadStatus
  import opened ThreadTable
  import opened ThreadsFilter
  import opened ThreadsView

  const ThreadA := ThreadSnapshot(100, ProcStop, "/bin/a", false)
  const ThreadB := ThreadSnapshot(101, ProcRun, "/bin/b", true)
  const TwoThreads := [ThreadA, ThreadB]

  /** Reconciling with the two threads bolds the current one only and labels both states. */
  lemma TwoThreadRows(prior: seq<Row>)
    ensures var rows := Reconciled(prior, TwoThreads);
      && |rows| == 2
      && !IsBold(rows[0]) && IsBold(rows[1])
      && CellText(rows[0].status) == "Stopped" && CellText(rows[1].status) == "Running"
  {
    var rows := Reconciled(prior, TwoThreads);
    ReconciledShows(prior, TwoThreads);
    BoldIffCurrent(rows, TwoThreads, 0);
    BoldIffCurrent(rows, TwoThreads, 1);
  }

  /** A table of five rows shrinks to the two fetched threads. */
  lemma FiveRowsShrinkToTwo(prior: seq<Row>)
    requires |prior| == 5
    ensures |Reconciled(prior, TwoThreads)| == 2
  {
    ReconciledShows(prior, TwoThreads);
  }

  const RowA := RenderRow(ThreadA)
  const RowB := RenderRow(ThreadB)

  /** Whatever the table held, it becomes the two threads' rows. */
  lemma TwoThreadTable(prior: seq<Row>)
    ensures Reconciled(prior, TwoThreads) == [RowA, RowB]
  {
    ReconciledShows(prior, TwoThreads);
  }

  /** The texts of the two rows. */
  lemma RowTexts()
    ensures CellText(RowA.pid) == "100" && CellText(RowB.pid) == "101"
    ensures CellText(RowA.status) == "Stopped" && CellText(RowA.path) == "/bin/a"
    ensures CellText(RowB.path) == "/bin/b"
  {
  }

  /** "bin" is in both paths. */
  lemma BinMatchesBothRows()
    ensures Accepts(RowA, "bin") && Accepts(RowB, "bin")
  {
    RowTexts();
    assert Lower("bin") == "bin" && Lower("/bin/a") == "/bin/a" && Lower("/bin/b") == "/bin/b";
    assert StartsWith("/bin/a"[1..], "bin") && StartsWith("/bin/b"[1..], "bin");
    assert ColumnMatches(CellText(At(RowA, PathColumn)), "bin");
    assert ColumnMatches(CellText(At(RowB, PathColumn)), "bin");
  }

  /** "101" is the second row's id. */
  lemma IdMatchesSecondRow()
    ensures Accepts(RowB, "101")
  {
    RowTexts();
    assert StartsWith(Lower("101")[0..], Lower("101"));
    assert ColumnMatches(CellText(At(RowB, PidColumn)), "101");
  }

  /** No column of the first row contains "101". */
  lemma IdMissesFirstRow(col: Column)
    ensures !ColumnMatches(CellText(At(RowA, col)), "101")
  {
  }

  /** "101" is the second thread's id and appears nowhere in the first row. */
  lemma IdMatchesOneRow()
    ensures !Accepts(RowA, "101") && Accepts(RowB, "101")
  {
    IdMatchesSecondRow();
    forall col: Column
      ensures !ColumnMatches(CellText(At(RowA, col)), "101")
    {
      IdMissesFirstRow(col);
    }
  }

  /** Which of two rows the filter keeps. */
  lemma VisibleOfTwo(a: Row, b: Row, token: string)
    ensures Visible([a, b], token)
              == (if Accepts(a, token) then [a] else []) + (if Accepts(b, token) then [b] else [])
  {
  }

  /** Filtering the two rows by "bin" keeps both. */
  lemma FilterByPathKeepsBoth()
    ensures Visible([RowA, RowB], "bin") == [RowA, RowB]
  {
    BinMatchesBothRows();
    VisibleOfTwo(RowA, RowB, "bin");
  }

  /** Filtering the two rows by "101" keeps only the second. */
  lemma FilterByIdKeepsOne()
    ensures Visible([RowA, RowB], "101") == [RowB]
  {
    IdMatchesOneRow();
    VisibleOfTwo(RowA, RowB, "101");
  }

  /** With no debugging session, a refresh empties the table without fetching. */
  method InactiveSessionEmptiesTable() returns (rows: seq<Row>, fetches: nat, disabled: bool)
    ensures rows == [] && fetches == 0 && !disabled
  {
    var core := new DebugCore(false, false, TwoThreads);
    var widget := new ThreadsWidget(core);
    widget.UpdateContents(true);
    rows, fetches, disabled := widget.modelThreads.rows, core.fetchCount, widget.viewDisabled;
  }

  /** Activating the row of thread a after a has exited, leaving only b, issues no command
      but still refreshes the table to the thread that remains. */
  method StaleActivation(widget: ThreadsWidget, a: ThreadSnapshot, b: ThreadSnapshot)
    requires a.pid != b.pid
    requires Shows(widget.modelThreads.rows, [a, b]) && widget.core.threads == [b]
    requires widget.core.currentlyDebugging && !widget.core.taskInProgress
    modifies widget, widget.modelThreads, widget.core
    ensures widget.core.switchLog == old(widget.core.switchLog)
    ensures Shows(widget.modelThreads.rows, [b])
  {
    UnfilteredActivationSelectsRowThread(widget.modelThreads.rows, [a, b], 0);
    assert SwitchCommands([b], a.pid) == [];
    widget.OnActivated(Index(0, PathColumn), "", true);
  }
}
