/** One sample of a GPU's state: pkg/blackbox/snapshot.go. */
module Telemetry {

  // The bitmask of throttle reasons is the set of its bits.
  datatype Snapshot = Snapshot(
    timestamp: int,
    index: nat,
    uuid: string,
    temperature: nat,
    tempThreshold: nat,
    memUsed: nat,
    memTotal: nat,
    throttling: set<nat>,
    eccCorrectable: nat,
    eccUncorrectable: nat)

  predicate IsThrottled(s: Snapshot) {
    s.throttling != {}
  }

  predicate HasECCErrors(s: Snapshot) {
    s.eccCorrectable > 0 || s.eccUncorrectable > 0
  }

  function MemoryUsagePercent(s: Snapshot): real {
    if s.memTotal == 0 then 0.0 else s.memUsed as real / s.memTotal as real * 100.0
  }
}
