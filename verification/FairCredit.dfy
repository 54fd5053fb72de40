/** The split of one token block between two directions
    (internal/client/shared_credit_scheduler.go). */
module FairCredit {

  const MAX_UINT64: nat := 0xFFFF_FFFF_FFFF_FFFF
  const MAX_BLOCK: nat := 256 * 1024

  type uint64 = x: int | 0 <= x <= MAX_UINT64

  function MinCredit(a: nat, b: nat): (r: nat)
    ensures r <= a && r <= b && (r == a || r == b)
  {
    if a < b then a else b
  }

  function CapBlock(value: nat): (r: nat)
    ensures r <= value && r <= 262_144 && (r == value || r == 262_144)
  {
    if value > MAX_BLOCK then MAX_BLOCK else value
  }

  /** What a fair split of `available` is, said without an algorithm: all of the block that the
      two capped demands can absorb is paid out, neither side is paid more than its capped
      demand, and each side gets its half (the odd byte going to the first) unless it wants less. */
  ghost predicate IsFairSplit(available: nat, first: nat, second: nat, g1: nat, g2: nat) {
    && g1 + g2 == MinCredit(available, CapBlock(first) + CapBlock(second))
    && MinCredit((available + 1) / 2, CapBlock(first)) <= g1 <= CapBlock(first)
    && MinCredit(available / 2, CapBlock(second)) <= g2 <= CapBlock(second)
  }

  /** The split between two demands that are capped already.  `available + 1` is computed in 64 bits and
      wraps to zero for the largest block; the lending step still makes the split fair there. */
  function HalveAndLend(available: uint64, ingress: nat, egress: nat): (grants: (nat, nat))
    requires 0 < ingress <= MAX_BLOCK && 0 < egress <= MAX_BLOCK
    ensures grants.0 + grants.1 == MinCredit(available, ingress + egress)
    ensures MinCredit((available + 1) / 2, ingress) <= grants.0 <= ingress
    ensures MinCredit(available / 2, egress) <= grants.1 <= egress
  {
    var ingressShare := ((available + 1) % (MAX_UINT64 + 1)) / 2;
    var egressShare := available / 2;
    var i0, e0 := MinCredit(ingressShare, ingress), MinCredit(egressShare, egress);
    var remaining := available - i0 - e0;
    var extra := MinCredit(remaining, ingress - i0);
    (i0 + extra, e0 + MinCredit(remaining - extra, egress - e0))
  }

  function FairAllocation(available: uint64, ingressDemand: uint64, egressDemand: uint64): (grants: (nat, nat))
    ensures IsFairSplit(available, ingressDemand, egressDemand, grants.0, grants.1)
  {
    if available == 0 then (0, 0)
    else
      var ingress, egress := CapBlock(ingressDemand), CapBlock(egressDemand);
      if ingress == 0 then (0, MinCredit(available, egress))
      else if egress == 0 then (MinCredit(available, ingress), 0)
      else HalveAndLend(available, ingress, egress)
  }

  /** The three conditions leave no freedom: there is exactly one fair split. */
  lemma FairSplitIsUnique(available: nat, first: nat, second: nat, g1: nat, g2: nat, h1: nat, h2: nat)
    requires IsFairSplit(available, first, second, g1, g2)
    requires IsFairSplit(available, first, second, h1, h2)
    ensures g1 == h1 && g2 == h2
  {
  }
}
