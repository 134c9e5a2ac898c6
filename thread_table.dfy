/** How a fetched thread list is written into the item table: row i is overwritten (or
    created) from thread i, and rows past the end of the list are removed. */
module ThreadTable {
  import opened Decimal
  import opened DebugSession
  import opened ItemModel
  import opened ThreadStatus

  /** The row shown for one thread: its id in decimal, its status label and its path,
      all in bold exactly when it is the current thread. */
  function RenderRow(t: ThreadSnapshot): Row
  {
    Row(Item(IntToDecimal(t.pid), t.current),
        Item(TranslateStatus(t.status), t.current),
        Item(t.path, t.current))
  }

  predicate IsBold(r: Row)
  {
    forall col: Column :: At(r, col).Item? && At(r, col).bold
  }

  /** The table shows exactly the threads ts, one row each, in fetch order. */
  ghost predicate Shows(rows: seq<Row>, ts: seq<ThreadSnapshot>)
  {
    |rows| == |ts| && forall k :: 0 <= k < |ts| ==> rows[k] == RenderRow(ts[k])
  }

  /** The table after the three setItem calls for thread t at row i. */
  function WriteThread(rows: seq<Row>, i: nat, t: ThreadSnapshot): (rows': seq<Row>)
    requires i <= |rows|
    ensures |rows'| == if i < |rows| then |rows| else i + 1
    ensures rows'[i] == RenderRow(t)
    ensures forall k :: 0 <= k < |rows| && k != i ==> rows'[k] == rows[k]
  {
    var withPid := SetCell(rows, i, PidColumn, Item(IntToDecimal(t.pid), t.current));
    var withStatus := SetCell(withPid, i, StatusColumn, Item(TranslateStatus(t.status), t.current));
    SetCell(withStatus, i, PathColumn, Item(t.path, t.current))
  }

  /** The table after the loop has written threads i, i + 1, ... of ts. */
  function WriteThreads(rows: seq<Row>, ts: seq<ThreadSnapshot>, i: nat): seq<Row>
    requires i <= |rows|
    decreases |ts| - i
  {
    if i >= |ts| then rows else WriteThreads(WriteThread(rows, i, ts[i]), ts, i + 1)
  }

  /** The table after a whole reconciliation of prior with ts: every thread written in
      place, then the rows past the last thread removed. */
  function Reconciled(prior: seq<Row>, ts: seq<ThreadSnapshot>): seq<Row>
  {
    var written := WriteThreads(prior, ts, 0);
    if |written| > |ts| then written[..|ts|] else written
  }

  lemma {:induction false} WriteThreadsEffect(rows: seq<Row>, ts: seq<ThreadSnapshot>, i: nat)
    requires i <= |rows| && i <= |ts|
    ensures var w := WriteThreads(rows, ts, i);
      && |w| == (if |rows| < |ts| then |ts| else |rows|)
      && (forall k :: 0 <= k < i ==> w[k] == rows[k])
      && (forall k :: i <= k < |ts| ==> w[k] == RenderRow(ts[k]))
      && (forall k :: |ts| <= k < |rows| ==> w[k] == rows[k])
    decreases |ts| - i
  {
    if i < |ts| {
      var next := WriteThread(rows, i, ts[i]);
      WriteThreadsEffect(next, ts, i + 1);
    }
  }

  /** Whatever the table held before, including the initial blank row or nothing at all,
      it afterwards shows exactly the fetched threads. */
  lemma ReconciledShows(prior: seq<Row>, ts: seq<ThreadSnapshot>)
    ensures Shows(Reconciled(prior, ts), ts)
  {
    WriteThreadsEffect(prior, ts, 0);
  }

  /** Only one table shows a given thread list. */
  lemma ShowsUnique(a: seq<Row>, b: seq<Row>, ts: seq<ThreadSnapshot>)
    requires Shows(a, ts) && Shows(b, ts)
    ensures a == b
  {
  }

  /** The outcome does not depend on what the table held before. */
  lemma ReconciledForgetsPrior(p: seq<Row>, q: seq<Row>, ts: seq<ThreadSnapshot>)
    ensures Reconciled(p, ts) == Reconciled(q, ts)
  {
    ReconciledShows(p, ts);
    ReconciledShows(q, ts);
    ShowsUnique(Reconciled(p, ts), Reconciled(q, ts), ts);
  }

  /** Reconciling twice with the same threads leaves the table as reconciling once. */
  lemma ReconciledIdempotent(prior: seq<Row>, ts: seq<ThreadSnapshot>)
    ensures Reconciled(Reconciled(prior, ts), ts) == Reconciled(prior, ts)
  {
    ReconciledForgetsPrior(Reconciled(prior, ts), prior, ts);
  }

  /** In a table showing ts, row k is bold exactly when thread k is the current one: the
      weight of one row never carries over to the next. */
  lemma BoldIffCurrent(rows: seq<Row>, ts: seq<ThreadSnapshot>, k: nat)
    requires Shows(rows, ts) && k < |ts|
    ensures IsBold(rows[k]) <==> ts[k].current
  {
    assert At(rows[k], PidColumn) == Item(IntToDecimal(ts[k].pid), ts[k].current);
  }

  /** In a table showing ts, row k displays thread k's id, translated status and path. */
  lemma RowContents(rows: seq<Row>, ts: seq<ThreadSnapshot>, k: nat)
    requires Shows(rows, ts) && k < |ts|
    ensures ToInt(CellText(rows[k].pid)) == ts[k].pid
    ensures CellText(rows[k].status) == TranslateStatus(ts[k].status)
    ensures CellText(rows[k].path) == ts[k].path
  {
    DecimalRoundTrip(ts[k].pid);
  }
}
