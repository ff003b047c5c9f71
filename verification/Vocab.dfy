/** Shared vocabulary: severities and their rank (core/vocab.py). */
module Vocab {
  datatype Severity = Critical | High | Medium | Low | Info

  /** Descending sort key: 0 is the most severe. */
  function Rank(s: Severity): nat {
    match s
    case Critical => 0
    case High => 1
    case Medium => 2
    case Low => 3
    case Info => 4
  }

  /** Severity `a` weighs at least as much as `b`. */
  predicate AtLeastAs(a: Severity, b: Severity) {
    match b
    case Critical => a == Critical
    case High => a == Critical || a == High
    case Medium => a == Critical || a == High || a == Medium
    case Low => a != Info
    case Info => true
  }

  /** Ranks order the severities from critical down to info. */
  lemma RanksDescend(a: Severity, b: Severity)
    ensures Rank(a) <= Rank(b) <==> AtLeastAs(a, b)
  {
  }
}
