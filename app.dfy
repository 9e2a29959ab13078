// The dashboard root: the latest metrics sample and the history of the
// last sixty samples (two minutes at one sample every two seconds).
module App {
  import opened Common
  import opened Metrics

  /** The component state: `metrics` (null before the first sample) and `metricsHistory`. */
  datatype Dashboard = Dashboard(metrics: Option<Sample>, metricsHistory: seq<Sample>)

  /** The number of samples the history keeps. */
  const HistoryWindow := 60

  /** The state before any sample arrives. */
  const Initial := Dashboard(None, [])

  /**
   * The `subscribeToMetrics` callback: the sample becomes `metrics` and is
   * appended to the history, which keeps its last sixty entries.
   */
  function OnMetrics(st: Dashboard, data: Sample): (r: Dashboard)
    ensures r.metrics == Some(data)
    ensures |r.metricsHistory| == Min(HistoryWindow, |st.metricsHistory| + 1)
    ensures r.metricsHistory[|r.metricsHistory| - 1] == data
    ensures r.metricsHistory == (st.metricsHistory + [data])[|st.metricsHistory| + 1 - |r.metricsHistory|..]
    ensures |st.metricsHistory| < HistoryWindow ==> r.metricsHistory == st.metricsHistory + [data]
    ensures |st.metricsHistory| == HistoryWindow ==> r.metricsHistory == st.metricsHistory[1..] + [data]
  {
    AppendWindow(st.metricsHistory, data, HistoryWindow);
    Dashboard(Some(data), SliceFrom(st.metricsHistory + [data], -HistoryWindow))
  }

  /** The state after a run of samples, each handled by `OnMetrics` in order. */
  function Receive(st: Dashboard, samples: seq<Sample>): Dashboard
    decreases |samples|
  {
    if samples == [] then st else OnMetrics(Receive(st, samples[..|samples| - 1]), samples[|samples| - 1])
  }

  /**
   * From the initial state, the history is always the last `min(60, n)`
   * of the `n` samples received, in order, and `metrics` the newest.
   */
  lemma {:induction false} ReceiveKeepsLast(samples: seq<Sample>)
    decreases |samples|
    ensures var r := Receive(Initial, samples);
      && r.metricsHistory == samples[|samples| - Min(HistoryWindow, |samples|)..]
      && (samples != [] ==> r.metrics == Some(samples[|samples| - 1]))
  {
    ReceiveWindow(samples);
    KeepLast(samples, HistoryWindow);
  }

  lemma {:induction false} ReceiveWindow(samples: seq<Sample>)
    decreases |samples|
    ensures Receive(Initial, samples).metricsHistory == SliceFrom(samples, -HistoryWindow)
  {
    if samples != [] {
      var front, x := samples[..|samples| - 1], samples[|samples| - 1];
      assert samples == front + [x];
      ReceiveWindow(front);
      WindowOfAppend(front, x, HistoryWindow);
    }
  }
}
