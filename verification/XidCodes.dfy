/** The descriptions of XID codes: pkg/xid/codes.go. */
module XIDCodes {

  // The table, and what is said of a code that is not in it. The texts are written in
  // parts, which keeps proofs about them short.
  function Description(code: int): string {
    match code
    case 8 => "GPU failed to retire a page of " + "memory with uncorrectable errors"
    case 13 => "Graphics engine exception occurred " + "during rendering or compute"
    case 31 => "General GPU exception - " + "internal error in GPU execution"
    case 32 => "GPU attempted to access " + "invalid memory address"
    case 43 => "GPU failed to respond to driver " + "commands within timeout period"
    case 45 => "GPU context preemption failed"
    case 48 => "Uncorrectable ECC error " + "detected in GPU memory - " + "data corruption has occurred"
    case 61 => "GPU internal micro-controller " + "detected an error condition"
    case 62 => "GPU micro-controller hit " + "unexpected breakpoint"
    case 63 => "GPU micro-controller " + "halted unexpectedly"
    case 64 => "GPU has pages pending retirement " + "due to excessive errors"
    case 68 => "Frame Buffer Partition A exception " + "- memory controller error"
    case 69 => "Frame Buffer Partition exception " + "- memory controller error"
    case 74 => "NVLink interconnect detected " + "error or link degradation"
    case 79 => "GPU is no longer accessible on PCIe " + "bus - complete hardware failure"
    case 92 => "Elevated rate of correctable " + "ECC errors detected"
    case 94 => "GPU detected and contained " + "an error - no data corruption"
    case 95 => "GPU error could not be contained " + "- potential data corruption"
    case _ => "XID not in known error table - check " + "NVIDIA documentation for details"
  }

  // Does not end like "event".
  predicate EndsUnlikeEvent(s: string) {
    |s| >= 3 && !(s[|s| - 3] == 'e' && s[|s| - 1] == 't')
  }

  // By ranges of codes.
  lemma EndsBelow45(code: int)
    requires code < 45
    ensures EndsUnlikeEvent(Description(code))
  {}

  lemma EndsBelow63(code: int)
    requires 45 <= code < 63
    ensures EndsUnlikeEvent(Description(code))
  {}

  lemma EndsBelow74(code: int)
    requires 63 <= code < 74
    ensures EndsUnlikeEvent(Description(code))
  {}

  lemma EndsFrom74(code: int)
    requires 74 <= code
    ensures EndsUnlikeEvent(Description(code))
  {}

  /** No description ends like "event". */
  lemma DescriptionEnds(code: int)
    ensures EndsUnlikeEvent(Description(code))
  {
    if code < 45 {
      EndsBelow45(code);
    } else if code < 63 {
      EndsBelow63(code);
    } else if code < 74 {
      EndsBelow74(code);
    } else {
      EndsFrom74(code);
    }
  }
}
