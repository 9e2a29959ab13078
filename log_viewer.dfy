// The log panel: the colour class of a status code and the window of the
// fifty most recent records that live `log:new` events append to.
module LogViewer {
  import opened Common
  import opened AccessLog

  /**
   * `getStatusColor(status)`: 2xx `success`, 3xx `info`, 4xx `warning`,
   * 500 and above `error`, everything below 200 `default`; every status
   * gets exactly one of the five.
   */
  function StatusColor(status: int): (r: string)
    ensures r == "success" <==> 200 <= status < 300
    ensures r == "info" <==> 300 <= status < 400
    ensures r == "warning" <==> 400 <= status < 500
    ensures r == "error" <==> status >= 500
    ensures r == "default" <==> status < 200
  {
    if 200 <= status < 300 then "success"
    else if 300 <= status < 400 then "info"
    else if 400 <= status < 500 then "warning"
    else if status >= 500 then "error"
    else "default"
  }

  /** The number of records the panel keeps. */
  const LogWindow := 50

  /**
   * The `setLogs` updater for a live record: `[...prev, newLog].slice(-50)`.
   * The new record is last, at most fifty are kept, they are the last
   * ones of `prev` followed by the new record, and nothing is dropped
   * while there is room.
   */
  function AppendLog(prev: seq<AccessRecord>, newLog: AccessRecord): (r: seq<AccessRecord>)
    ensures |r| == Min(LogWindow, |prev| + 1)
    ensures r[|r| - 1] == newLog
    ensures r == (prev + [newLog])[|prev| + 1 - |r|..]
    ensures |prev| < LogWindow ==> r == prev + [newLog]
  {
    AppendWindow(prev, newLog, LogWindow);
    SliceFrom(prev + [newLog], -LogWindow)
  }
}
