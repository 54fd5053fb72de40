/** One token bucket of the server (budgetSlot in internal/server/bandwidth.go).  Token counts are
    reals, times are whole nanoseconds. */
module BudgetSlot {
  import opened Durations

  datatype Stamp = Never | At(ns: int)

  datatype Slot = Slot(limit: int, capacity: real, tokens: real, last: Stamp)

  ghost predicate SlotOk(s: Slot) {
    if s.limit <= 0 then s.capacity == 0.0 && s.tokens == 0.0
    else s.capacity == s.limit as real && 0.0 <= s.tokens <= s.capacity
  }

  function MinReal(a: real, b: real): (r: real)
    ensures r <= a && r <= b && (r == a || r == b)
  {
    if a < b then a else b
  }

  /** Tokens that flow in during `ns` nanoseconds. */
  function Accrued(limit: int, ns: int): (tokens: real)
    ensures limit > 0 && ns >= 0 ==> tokens >= 0.0
  {
    (limit * ns) as real / SECOND as real
  }

  lemma AccruedAdds(limit: int, a: int, b: int)
    ensures Accrued(limit, a + b) == Accrued(limit, a) + Accrued(limit, b)
  {
    assert limit * (a + b) == limit * a + limit * b;
  }

  function Refill(s: Slot, now: int): Slot {
    if s.limit <= 0 then s.(last := At(now))
    else if s.last.Never? then s.(last := At(now), tokens := if s.tokens <= 0.0 then s.capacity else s.tokens)
    else if now - s.last.ns <= 0 then s
    else s.(tokens := MinReal(s.capacity, s.tokens + Accrued(s.limit, now - s.last.ns)), last := At(now))
  }

  /** previewLocked: the refilled slot and what it would let through. */
  function Preview(s: Slot, now: int, maxBytes: int): (Slot, int) {
    if maxBytes <= 0 then (s, 0)
    else if s.limit <= 0 then (s, maxBytes)
    else
      var r := Refill(s, now);
      if r.tokens < 1.0 then (r, 0)
      else (r, if r.tokens.Floor > maxBytes then maxBytes else r.tokens.Floor)
  }

  function Take(s: Slot, now: int, maxBytes: int): (Slot, int) {
    var (r, allowed) := Preview(s, now, maxBytes);
    if r.limit > 0 && allowed > 0 then
      var left := r.tokens - allowed as real;
      (r.(tokens := if left < 0.0 then 0.0 else left), allowed)
    else (r, allowed)
  }

  function Refund(s: Slot, now: int, bytes: int): Slot {
    if bytes <= 0 || s.limit <= 0 then s
    else
      var r := Refill(s, now);
      r.(tokens := MinReal(r.capacity, r.tokens + bytes as real))
  }

  function Ceil(x: real): int {
    -((-x).Floor)
  }

  /** waitDurationLocked, in nanoseconds. */
  function Wait(s: Slot, now: int): (Slot, int) {
    if s.limit <= 0 then (s, 0)
    else
      var r := Refill(s, now);
      if r.tokens >= 1.0 then (r, 0)
      else
        var seconds := (1.0 - r.tokens) / r.limit as real;
        (r, if seconds <= 0.0 then 0 else Ceil(seconds * SECOND as real))
  }

  function UpdateLimit(s: Slot, now: int, limit: int): Slot {
    var r := if s.limit > 0 then Refill(s, now) else s;
    if limit <= 0 then Slot(limit, 0.0, 0.0, At(now))
    else
      var capacity := limit as real;
      Slot(limit, capacity, if r.tokens <= 0.0 || r.tokens > capacity then capacity else r.tokens, At(now))
  }

  // ---------- what the operations keep ----------

  lemma OperationsKeepSlotOk(s: Slot, now: int, n: int)
    requires SlotOk(s)
    ensures SlotOk(Refill(s, now))
    ensures SlotOk(Preview(s, now, n).0)
    ensures SlotOk(Take(s, now, n).0) && 0 <= Take(s, now, n).1 && (n >= 0 ==> Take(s, now, n).1 <= n)
    ensures SlotOk(Refund(s, now, n))
    ensures SlotOk(Wait(s, now).0)
    ensures SlotOk(UpdateLimit(s, now, n))
  {
  }

  /** A refill in plain numbers: a limited slot gains its limit per second, up to its limit; a clock that has
      not moved on changes nothing. */
  lemma RefillMeans(s: Slot, now: int)
    requires SlotOk(s) && s.limit > 0 && s.last.At?
    ensures now <= s.last.ns ==> Refill(s, now) == s
    ensures now > s.last.ns ==>
              var filled := s.tokens + (s.limit * (now - s.last.ns)) as real / 1_000_000_000.0;
              Refill(s, now) ==
                s.(last := At(now), tokens := if filled < s.limit as real then filled else s.limit as real)
  {
  }

  lemma RefillGains(s: Slot, now: int)
    requires SlotOk(s)
    ensures Refill(s, now).tokens >= s.tokens
  {
  }

  /** Setting a limit: an empty or formerly unlimited slot starts full, a fuller one is cut to the limit. */
  lemma UpdateLimitMeans(s: Slot, now: int, limit: int)
    requires SlotOk(s)
    ensures var u := UpdateLimit(s, now, limit);
            && u.limit == limit && u.last == At(now) && (limit <= 0 ==> u.tokens == u.capacity == 0.0)
            && (limit > 0 ==> u.capacity == limit as real)
            && (limit > 0 && s.limit <= 0 ==> u.tokens == limit as real)
            && (limit > 0 && s.limit > 0 ==>
                var held := Refill(s, now).tokens;
                u.tokens == if held == 0.0 || held > limit as real then limit as real else held)
  {
  }

  /** What a take charged is given back by a refund at the same instant, byte by byte. */
  lemma RefundUndoesTake(s: Slot, now: int, maxBytes: int, bytes: int)
    requires SlotOk(s) && s.limit > 0 && (s.last.At? ==> s.last.ns <= now)
    requires 0 <= bytes <= Take(s, now, maxBytes).1
    ensures var (t, allowed) := Take(s, now, maxBytes);
            allowed > 0 ==> Refund(t, now, bytes).tokens == Refill(s, now).tokens - (allowed - bytes) as real
  {
    hide Accrued;
  }

  /** A refund adds all its bytes, or fills the slot. */
  lemma RefundGivesBack(s: Slot, now: int, bytes: int)
    requires SlotOk(s) && s.limit > 0 && bytes >= 0
    ensures var r := Refund(s, now, bytes); r.tokens >= s.tokens + bytes as real || r.tokens == r.capacity
  {
    hide Accrued;
  }

  /** A take hands out as much as asked or leaves less than one token, and charges what it hands out. */
  lemma TakeIsMaximal(s: Slot, now: int, maxBytes: int)
    requires SlotOk(s) && s.limit > 0 && maxBytes > 0
    ensures var (t, allowed) := Take(s, now, maxBytes);
            && t.tokens == Refill(s, now).tokens - allowed as real
            && (allowed == maxBytes || t.tokens < 1.0)
  {
  }

  /** Sleeping for the computed wait is enough: at any time from `now + wait` on, a refill reaches
      one whole token. */
  lemma WaitReachesOneToken(s: Slot, now: int, later: int)
    requires SlotOk(s) && s.limit > 0 && (s.last.At? ==> s.last.ns <= now)
    requires later >= now + Wait(s, now).1
    ensures Wait(s, now).1 >= 0 && (Refill(s, now).tokens < 1.0 ==> Wait(s, now).1 > 0)
    ensures Refill(Wait(s, now).0, later).tokens >= 1.0
  {
    var (r, wait) := Wait(s, now);
    if r.tokens < 1.0 {
      var deficit := 1.0 - r.tokens;
      var x := deficit / r.limit as real * SECOND as real;
      CeilBounds(x);
      DeficitCovered(deficit, r.limit, later - now);
    }
  }

  /** No shorter sleep would have been enough. */
  lemma WaitIsLeast(s: Slot, now: int, later: int)
    requires SlotOk(s) && s.limit > 0 && s.last.At? && s.last.ns <= now <= later < now + Wait(s, now).1
    ensures Refill(s, later).tokens < 1.0
  {
    var r := Refill(s, now);
    var ns := later - now;
    var seconds := (1.0 - r.tokens) / r.limit as real;
    CeilBounds(seconds * SECOND as real);
    assert ns as real < seconds * SECOND as real;
    TooShort(1.0 - r.tokens, s.limit, ns);
    AccruedAdds(s.limit, now - s.last.ns, ns);
  }

  lemma TooShort(deficit: real, limit: int, ns: int)
    requires 0.0 < deficit && limit > 0 && ns >= 0 && (ns as real) < deficit / limit as real * SECOND as real
    ensures Accrued(limit, ns) < deficit
  {
    var rate, per := limit as real, deficit / limit as real;
    assert rate * per == deficit;
    MulLess(ns as real, per * SECOND as real, rate);
    assert rate * (per * SECOND as real) == deficit * SECOND as real;
    assert (limit * ns) as real == rate * ns as real;
  }

  lemma MulLess(a: real, b: real, c: real)
    requires a < b && c > 0.0
    ensures c * a < c * b
  {
  }

  lemma CeilBounds(x: real)
    ensures x <= Ceil(x) as real < x + 1.0
  {
  }

  lemma DeficitCovered(deficit: real, limit: int, ns: int)
    requires 0.0 < deficit && limit > 0 && ns as real >= deficit / limit as real * SECOND as real
    ensures deficit / limit as real > 0.0
    ensures Accrued(limit, ns) >= deficit
  {
    var l, n := limit as real, ns as real;
    var q := deficit / l;
    assert q * l == deficit;
    assert n * l >= q * SECOND as real * l by { MulGe(n, q * SECOND as real, l); }
    assert q * SECOND as real * l == deficit * SECOND as real;
    assert (limit * ns) as real == l * n;
  }

  lemma MulGe(a: real, b: real, c: real)
    requires a >= b && c > 0.0
    ensures a * c >= b * c
  {
  }

  /** A second refill at the same time changes nothing. */
  lemma RefillIdempotent(s: Slot, now: int)
    ensures Refill(Refill(s, now), now) == Refill(s, now)
  {
  }

  /** Whether a refill at `now` reaches a whole token; once it does, it does at every later time. */
  predicate Ready(s: Slot, now: int) {
    s.limit <= 0 || Refill(s, now).tokens >= 1.0
  }

  lemma ReadyLater(s: Slot, now: int, later: int)
    requires SlotOk(s) && Ready(s, now) && now <= later && (s.last.At? ==> s.last.ns <= now)
    ensures Ready(s, later)
  {
    if s.limit > 0 && s.last.At? {
      AccruedMonotone(s.limit, now - s.last.ns, later - s.last.ns);
    }
  }

  // ---------- the rate of one slot, under any interleaving ----------

  datatype Op =
    | DoTake(now: int, maxBytes: int)
    | DoRefund(now: int, bytes: int)
    | DoPreview(now: int, maxBytes: int)
    | DoWait(now: int)

  function Apply(s: Slot, op: Op): Slot {
    match op
    case DoTake(now, n) => Take(s, now, n).0
    case DoRefund(now, n) => Refund(s, now, n)
    case DoPreview(now, n) => Preview(s, now, n).0
    case DoWait(now) => Wait(s, now).0
  }

  /** Bytes an operation takes from the slot, counted negative when it gives bytes back. */
  function Charge(s: Slot, op: Op): int {
    match op
    case DoTake(now, n) => Take(s, now, n).1
    case DoRefund(now, n) => if n > 0 then -n else 0
    case _ => 0
  }

  function ApplyAll(s: Slot, ops: seq<Op>): Slot
    decreases |ops|
  {
    if ops == [] then s else ApplyAll(Apply(s, ops[0]), ops[1..])
  }

  function NetBytes(s: Slot, ops: seq<Op>): int
    decreases |ops|
  {
    if ops == [] then 0 else Charge(s, ops[0]) + NetBytes(Apply(s, ops[0]), ops[1..])
  }

  /** The most that can still be taken by operations stamped in [from, to]. */
  ghost function Headroom(s: Slot, from: int, to: int): real {
    if s.last.Never? || s.last.ns < from then s.capacity + Accrued(s.limit, to - from)
    else s.tokens + (if s.last.ns <= to then Accrued(s.limit, to - s.last.ns) else 0.0)
  }

  lemma AccruedMonotone(limit: int, a: int, b: int)
    requires limit > 0 && a <= b
    ensures Accrued(limit, a) <= Accrued(limit, b)
  {
    AccruedAdds(limit, a, b - a);
  }

  /** A limited bucket of any capacity, not necessarily that of a budget slot. */
  predicate InRange(s: Slot) {
    s.limit > 0 && 0.0 <= s.tokens <= s.capacity
  }

  lemma RefillKeepsHeadroom(s: Slot, from: int, to: int, now: int)
    requires InRange(s) && from <= now <= to
    ensures var r := Refill(s, now); r.last.At? && from <= r.last.ns && Headroom(r, from, to) <= Headroom(s, from, to)
  {
    hide Accrued;
    AccruedMonotone(s.limit, to - now, to - from);
    if s.last.At? {
      AccruedAdds(s.limit, to - now, now - s.last.ns);
    }
  }

  lemma OpKeepsHeadroom(s: Slot, op: Op, from: int, to: int)
    requires SlotOk(s) && s.limit > 0 && from <= op.now <= to
    ensures var t := Apply(s, op);
            && SlotOk(t) && t.limit == s.limit && t.capacity == s.capacity
            && Charge(s, op) as real + Headroom(t, from, to) <= Headroom(s, from, to)
  {
    hide Accrued;
    var n := if op.DoTake? || op.DoPreview? then op.maxBytes else if op.DoRefund? then op.bytes else 0;
    OperationsKeepSlotOk(s, op.now, n);
    RefillKeepsHeadroom(s, from, to, op.now);
  }

  /** Whatever the order of the operations and however far their clock readings run back and forth,
      operations stamped within a window take at most one capacity plus the rate over the window. */
  lemma {:induction false} RateOverWindow(s: Slot, ops: seq<Op>, from: int, to: int)
    requires SlotOk(s) && s.limit > 0 && from <= to
    requires forall i :: 0 <= i < |ops| ==> from <= ops[i].now <= to
    ensures NetBytes(s, ops) as real + Headroom(ApplyAll(s, ops), from, to) <= Headroom(s, from, to)
    ensures NetBytes(s, ops) as real <= s.capacity + Accrued(s.limit, to - from)
    decreases |ops|
  {
    hide Apply, Charge, Accrued;
    HeadroomBounds(s, from, to);
    if ops != [] {
      OpKeepsHeadroom(s, ops[0], from, to);
      RateOverWindow(Apply(s, ops[0]), ops[1..], from, to);
    }
    RunKeepsSlotOk(s, ops);
    HeadroomBounds(ApplyAll(s, ops), from, to);
  }

  lemma {:induction false} RunKeepsSlotOk(s: Slot, ops: seq<Op>)
    requires SlotOk(s) && s.limit > 0
    ensures SlotOk(ApplyAll(s, ops)) && ApplyAll(s, ops).limit == s.limit
    decreases |ops|
  {
    hide Accrued;
    if ops != [] {
      RunKeepsSlotOk(Apply(s, ops[0]), ops[1..]);
    }
  }

  lemma HeadroomBounds(s: Slot, from: int, to: int)
    requires InRange(s) && from <= to
    ensures 0.0 <= Headroom(s, from, to) <= s.capacity + Accrued(s.limit, to - from)
  {
    hide Accrued;
    if s.last.At? && from <= s.last.ns <= to {
      AccruedMonotone(s.limit, to - s.last.ns, to - from);
    }
  }
}
