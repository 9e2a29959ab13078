// `getLogStats`: reads the last thousand access-log lines and counts the
// parsed requests by status code and by path, keeping the ten most
// requested paths.
module LogStats {
  import opened Common
  import opened Counting
  import opened AccessLog
  import opened LogReader

  /**
   * `{ totalRequests, statusCodes, topPaths }`; each top path is an entry
   * whose key is the path.
   */
  datatype LogStats = LogStats(totalRequests: nat, statusCodes: Counter<nat>, topPaths: seq<Entry<string>>)

  /** The number of access-log lines `getLogStats` reads. */
  const StatsWindow := 1000

  /** The status codes of the records, in order. */
  function Statuses(logs: seq<AccessRecord>): (r: seq<nat>)
    ensures |r| == |logs|
    ensures forall i :: 0 <= i < |logs| ==> r[i] == logs[i].status
  {
    if logs == [] then [] else Statuses(logs[..|logs| - 1]) + [logs[|logs| - 1].status]
  }

  /** The paths of the records, in order. */
  function Paths(logs: seq<AccessRecord>): (r: seq<string>)
    ensures |r| == |logs|
    ensures forall i :: 0 <= i < |logs| ==> r[i] == logs[i].path
  {
    if logs == [] then [] else Paths(logs[..|logs| - 1]) + [logs[|logs| - 1].path]
  }

  /**
   * What `getLogStats` promises about the figures it derives from `logs`:
   * the status counts add up to the number of records and each is that
   * code's number of records; the top paths are at most ten distinct paths
   * with their true counts, in non-increasing order, and a path left out
   * means ten were kept, each with a count at least the left-out one's.
   */
  ghost predicate Summarizes(stats: LogStats, logs: seq<AccessRecord>)
  {
    && stats.totalRequests == |logs|
    && CountsOf(stats.statusCodes, Statuses(logs))
    && TopOf(stats.topPaths, Paths(logs))
  }

  /**
   * `getLogStats()` over the access log's state: the figures summarize the
   * records of the last thousand lines, and with no records every figure
   * is zero or empty.
   */
  method GetLogStats(file: FileState<string>) returns (stats: LogStats)
    ensures var logs := ReadAccessLogs(file, StatsWindow).logs;
      && Summarizes(stats, logs)
      && (logs == [] ==> stats == LogStats(0, Empty(), []))
  {
    var logs := ReadAccessLogs(file, StatsWindow).logs;
    stats := Summarize(logs);
  }

  /** The body of `getLogStats` once the records are read: the counting loop and the sort. */
  method Summarize(logs: seq<AccessRecord>) returns (stats: LogStats)
    ensures Summarizes(stats, logs)
    ensures logs == [] ==> stats == LogStats(0, Empty(), [])
  {
    var statusCodes, pathCounts := CountRequests(logs);
    stats := LogStats(|logs|, statusCodes, TopTen(pathCounts));
    TalliesSummarize(logs);
    if logs == [] {
      assert Entries(pathCounts) == [];
    }
  }

  /**
   * The `forEach` of `getLogStats`: for every record, in order,
   * `statusCodes[log.status]` and `paths[log.path]` go up by one.
   */
  method CountRequests(logs: seq<AccessRecord>) returns (statusCodes: Counter<nat>, pathCounts: Counter<string>)
    ensures statusCodes == Tally(Statuses(logs))
    ensures pathCounts == Tally(Paths(logs))
  {
    statusCodes, pathCounts := CountPairs(Statuses(logs), Paths(logs));
  }

  /** One pass over paired keys, incrementing one counter for each side. */
  method CountPairs<A, B>(xs: seq<A>, ys: seq<B>) returns (cx: Counter<A>, cy: Counter<B>)
    requires |xs| == |ys|
    ensures cx == Tally(xs) && cy == Tally(ys)
  {
    cx, cy := Empty(), Empty();
    var i := 0;
    while i < |xs|
      invariant 0 <= i <= |xs|
      invariant cx == Tally(xs[..i]) && cy == Tally(ys[..i])
    {
      TallyPrefix(xs, i);
      TallyPrefix(ys, i);
      cx := Increment(cx, xs[i]);
      cy := Increment(cy, ys[i]);
      i := i + 1;
    }
    assert xs[..i] == xs && ys[..i] == ys;
  }

  /** The tallies of the status codes and of the paths summarize the records. */
  lemma TalliesSummarize(logs: seq<AccessRecord>)
    ensures Summarizes(LogStats(|logs|, Tally(Statuses(logs)), TopTen(Tally(Paths(logs)))), logs)
  {
    TallyCountsOf(Statuses(logs));
    TallyTop(Paths(logs));
  }
}
