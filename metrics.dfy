// The metrics sample `getCurrentMetrics` produces, reduced to the fields the
// modelled code reads. The sample itself comes from the system-information
// library and is an input throughout.
module Metrics {
  import opened Common

  /**
   * One sample: `cpu.usage` and `memory.usagePercent`, either of which the
   * chart treats as possibly absent (`m?.cpu?.usage`).
   */
  datatype Sample = Sample(cpuUsage: Option<real>, memoryUsagePercent: Option<real>)
}
