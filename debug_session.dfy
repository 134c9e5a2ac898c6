/** The debugger engine as this view sees it: what it answers and what it is told to do.
    Its answers are plain fields; the commands it receives are recorded. */
module DebugSession {

  /** One thread of the debugged process, as one fetch reports it. */
  datatype ThreadSnapshot = ThreadSnapshot(pid: int, status: char, path: string, current: bool)

  class DebugCore {
    var currentlyDebugging: bool
    var taskInProgress: bool
    /** What a fetch of the debugged process's threads returns right now. */
    var threads: seq<ThreadSnapshot>
    /** How many fetches have been made. */
    var fetchCount: nat
    /** The thread-switch commands issued, oldest first. */
    var switchLog: seq<int>

    constructor (debugging: bool, inProgress: bool, threads: seq<ThreadSnapshot>)
      ensures currentlyDebugging == debugging && taskInProgress == inProgress
      ensures this.threads == threads && fetchCount == 0 && switchLog == []
    {
      currentlyDebugging := debugging;
      taskInProgress := inProgress;
      this.threads := threads;
      fetchCount := 0;
      switchLog := [];
    }

    /** Fetches the threads of the debugged process. */
    method GetProcessThreads() returns (ts: seq<ThreadSnapshot>)
      modifies this`fetchCount
      ensures ts == threads && fetchCount == old(fetchCount) + 1
    {
      ts := threads;
      fetchCount := fetchCount + 1;
    }

    /** Tells the engine to make thread tid the current one. */
    method SetCurrentDebugThread(tid: int)
      modifies this`switchLog
      ensures switchLog == old(switchLog) + [tid]
    {
      switchLog := switchLog + [tid];
    }
  }
}
