// The metrics-history chart: one label per sample, counting back in steps
// of two seconds from `Now`, and the CPU and memory series with missing
// values drawn as zero.
module MetricsChart {
  import opened Text
  import opened Common
  import opened Metrics

  /** The seconds before the newest sample at which sample `i` of `n` was taken. */
  function SecondsAgo(n: nat, i: nat): (r: nat)
    requires i < n
    ensures r == 0 <==> i == n - 1
  {
    (n - i - 1) * 2
  }

  /** Successive labels are two seconds apart, the older one further back. */
  lemma SecondsAgoStep(n: nat, i: nat)
    requires i + 1 < n
    ensures SecondsAgo(n, i) == SecondsAgo(n, i + 1) + 2
  {
  }

  /** The label of one sample: `Now`, or `-{secondsAgo}s`. */
  function Label(secondsAgo: nat): (r: string)
    ensures secondsAgo == 0 ==> r == "Now"
    ensures secondsAgo != 0 ==> r == "-" + NatToString(secondsAgo) + "s"
  {
    if secondsAgo == 0 then "Now" else "-" + NatToString(secondsAgo) + "s"
  }

  /** `labels`: one per sample, `Now` for the newest and only for it. */
  function Labels(history: seq<Sample>): (r: seq<string>)
    ensures |r| == |history|
    ensures forall i :: 0 <= i < |history| ==> r[i] == Label(SecondsAgo(|history|, i))
    ensures forall i :: 0 <= i < |history| ==> (r[i] == "Now" <==> i == |history| - 1)
  {
    var n := |history|;
    var r := seq(n, i requires 0 <= i < n => Label(SecondsAgo(n, i)));
    assert forall i :: 0 <= i < n - 1 ==> r[i][0] == '-';
    r
  }

  /** Different samples get different labels. */
  lemma LabelsDistinct(history: seq<Sample>, i: nat, j: nat)
    requires i < j < |history|
    ensures Labels(history)[i] != Labels(history)[j]
  {
    var n := |history|;
    var a, b := SecondsAgo(n, i), SecondsAgo(n, j);
    assert a != b;
    if b != 0 {
      var la, lb := Label(a), Label(b);
      assert la[1..|la| - 1] == NatToString(a);
      assert lb[1..|lb| - 1] == NatToString(b);
    }
  }

  /** `value || 0` for a reading that may be absent. */
  function OrZero(v: Option<real>): (r: real)
    ensures v.Some? ==> r == v.value
    ensures v.None? ==> r == 0.0
  {
    if v.Some? && v.value != 0.0 then v.value else 0.0
  }

  /** `cpuData`: the CPU usage of each sample, in position, absent readings as 0. */
  function CpuData(history: seq<Sample>): (r: seq<real>)
    ensures |r| == |history|
    ensures forall i :: 0 <= i < |history| ==> r[i] == OrZero(history[i].cpuUsage)
  {
    seq(|history|, i requires 0 <= i < |history| => OrZero(history[i].cpuUsage))
  }

  /** `memoryData`: the memory usage of each sample, in position, absent readings as 0. */
  function MemoryData(history: seq<Sample>): (r: seq<real>)
    ensures |r| == |history|
    ensures forall i :: 0 <= i < |history| ==> r[i] == OrZero(history[i].memoryUsagePercent)
  {
    seq(|history|, i requires 0 <= i < |history| => OrZero(history[i].memoryUsagePercent))
  }
}
