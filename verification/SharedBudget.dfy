/** The budget that the two directions of a tunnel share (sharedFairBudget in
    internal/server/bandwidth.go), with any number of concurrent reservers.  A reserver is a loop
    whose every turn is one critical section, so a run is a sequence of entries and turns. */
module SharedBudget {
  import opened Durations
  import opened BudgetSlot
  import opened Options

  const MAX_BLOCK: int := 256 * 1024

  datatype Direction = Ingress | Egress {
    function Other(): Direction {
      if this == Ingress then Egress else Ingress
    }
  }

  datatype Budget = Budget(limit: int, capacity: real, tokens: real, last: Stamp,
                           ingress: int, egress: int, prefer: Direction) {
    function Waiting(d: Direction): int {
      if d == Ingress then ingress else egress
    }

    function AddWaiting(d: Direction, n: int): Budget {
      if d == Ingress then this.(ingress := ingress + n) else this.(egress := egress + n)
    }
  }

  function Refilled(b: Budget, now: int): Budget {
    if b.limit <= 0 || b.last.Never? then b.(last := At(now))
    else if now - b.last.ns > 0 then
      b.(tokens := MinReal(b.capacity, b.tokens + Accrued(b.limit, now - b.last.ns)), last := At(now))
    else b
  }

  function Capacity(limit: int): real {
    var tenth := limit as real / 10.0;
    MinReal(MAX_BLOCK as real, if tenth > 1.0 then tenth else 1.0)
  }

  /** The clock is read once for the refill and once more for the new stamp. */
  function WithLimit(b: Budget, limit: int, now: int, stamp: int): Budget {
    var r := Refilled(b, now).(limit := limit, last := At(stamp));
    if limit <= 0 then r.(tokens := 0.0, capacity := 0.0)
    else
      var c := Capacity(limit);
      r.(capacity := c, tokens := if r.tokens <= 0.0 || r.tokens > c then c else r.tokens)
  }

  /** What a turn may take from the refilled budget. */
  function Share(b: Budget, d: Direction, remaining: int): int {
    var allowed := MinReal(remaining as real, MinReal(MAX_BLOCK as real, b.tokens)).Floor;
    if b.Waiting(d.Other()) > 0 && allowed > 0 then
      var half := (b.tokens / 2.0).Floor;
      var share := if half == 0 && b.prefer == d then 1 else half;
      if share < allowed then share else allowed
    else allowed
  }

  /** One turn of the loop of Reserve: the budget afterwards and the bytes admitted. */
  function Turn(b: Budget, d: Direction, remaining: int, now: int): (Budget, int) {
    if b.limit <= 0 then (b.AddWaiting(d, -remaining), remaining)
    else
      var r := Refilled(b, now);
      var allowed := Share(r, d, remaining);
      if allowed > 0 then
        (r.(tokens := r.tokens - allowed as real,
            prefer := if r.Waiting(d.Other()) > 0 then d.Other() else r.prefer).AddWaiting(d, -allowed), allowed)
      else (r, 0)
  }

  ghost predicate BudgetOk(b: Budget) {
    && 0.0 <= b.tokens <= b.capacity
    && (b.limit > 0 ==> b.capacity == Capacity(b.limit) && b.last.At?)
    && (b.limit <= 0 ==> b.capacity == 0.0)
    && 0 <= b.ingress && 0 <= b.egress
  }

  lemma TurnFacts(b: Budget, d: Direction, remaining: int, now: int)
    requires BudgetOk(b) && 0 < remaining <= b.Waiting(d)
    ensures var (t, n) := Turn(b, d, remaining, now);
            && BudgetOk(t) && 0 <= n <= remaining
            && t.Waiting(d) == b.Waiting(d) - n && t.Waiting(d.Other()) == b.Waiting(d.Other())
            && t.limit == b.limit && t.capacity == b.capacity
  {
    hide Accrued, Capacity;
    if b.limit > 0 {
      RefilledOk(b, now);
      ShareFacts(Refilled(b, now), d, remaining);
    }
  }

  lemma RefilledOk(b: Budget, now: int)
    requires BudgetOk(b)
    ensures BudgetOk(Refilled(b, now))
  {
    hide Capacity;
  }

  /** Under contention a turn takes at most half of what is there, and when there is less than two
      tokens it takes one byte if its direction is preferred and nothing otherwise. */
  lemma ShareFacts(b: Budget, d: Direction, remaining: int)
    requires 0.0 <= b.tokens && remaining > 0
    ensures 0 <= Share(b, d, remaining) <= remaining && Share(b, d, remaining) as real <= b.tokens
    ensures Share(b, d, remaining) <= MAX_BLOCK
    ensures b.Waiting(d.Other()) > 0 && b.tokens >= 2.0 ==> Share(b, d, remaining) as real <= b.tokens / 2.0
    ensures b.Waiting(d.Other()) > 0 && b.tokens < 2.0 ==>
              Share(b, d, remaining) == if b.tokens >= 1.0 && b.prefer == d then 1 else 0
  {
    var m := MinReal(remaining as real, MinReal(MAX_BLOCK as real, b.tokens));
    assert b.tokens < 2.0 ==> (b.tokens / 2.0).Floor == 0;
    assert b.tokens >= 1.0 ==> m >= 1.0;
  }

  /** What a turn admits, without naming how it computes its share.  With nobody waiting on the other side it
      is the whole request, or a full block, or all whole tokens there are; with somebody waiting and two
      tokens or more, all of that but no more than half; with less, one byte for the preferred side. */
  lemma TurnIsMaximal(b: Budget, d: Direction, remaining: int, now: int)
    requires BudgetOk(b) && b.limit > 0 && remaining > 0
    ensures var (t, n) := Turn(b, d, remaining, now);
            var held, contested := Refilled(b, now).tokens, b.Waiting(d.Other()) > 0;
            && n >= 0 && t.tokens == held - n as real
            && (!contested ==> n == remaining || n == 262_144 || t.tokens < 1.0)
            && (contested && held >= 2.0 ==>
                && n as real <= held / 2.0
                && (n == remaining || n == 262_144 || (n + 1) as real > held / 2.0))
            && (contested && held < 2.0 ==> n == if held >= 1.0 && b.prefer == d then 1 else 0)
  {
    hide Accrued, Capacity;
    RefilledOk(b, now);
    RefilledFrame(b, now);
    var r := Refilled(b, now);
    hide Refilled;
    ShareIsMaximal(r, d, remaining);
    ShareFacts(r, d, remaining);
  }

  lemma ShareIsMaximal(b: Budget, d: Direction, remaining: int)
    requires b.tokens >= 0.0 && remaining > 0
    ensures var n, contested := Share(b, d, remaining), b.Waiting(d.Other()) > 0;
            && n >= 0
            && (!contested ==> n == remaining || n == 262_144 || b.tokens - (n as real) < 1.0)
            && (contested && b.tokens >= 2.0 ==>
                n == remaining || n == 262_144 || (n + 1) as real > b.tokens / 2.0)
  {
    var m := MinReal(remaining as real, MinReal(MAX_BLOCK as real, b.tokens));
    assert m == remaining as real || m == 262_144.0 || m == b.tokens;
  }

  /** Without a limit a turn admits everything. */
  lemma UnlimitedTurn(b: Budget, d: Direction, remaining: int, now: int)
    requires b.limit <= 0
    ensures Turn(b, d, remaining, now).1 == remaining
  {
  }

  /** A refill in plain numbers. */
  lemma RefilledMeans(b: Budget, now: int)
    requires b.limit > 0 && b.last.At?
    ensures now <= b.last.ns ==> Refilled(b, now) == b
    ensures now > b.last.ns ==>
              var filled := b.tokens + (b.limit * (now - b.last.ns)) as real / 1_000_000_000.0;
              Refilled(b, now) == b.(last := At(now), tokens := if filled < b.capacity then filled else b.capacity)
  {
  }

  /** Setting a limit: the capacity is a tenth of it, but at least one byte and at most a block; an empty
      budget starts full, a fuller one is cut. */
  lemma WithLimitMeans(b: Budget, limit: int, now: int, stamp: int)
    requires BudgetOk(b)
    ensures var u := WithLimit(b, limit, now, stamp);
            && u.limit == limit && u.last == At(stamp)
            && u.ingress == b.ingress && u.egress == b.egress && u.prefer == b.prefer
            && (limit <= 0 ==> u.capacity == u.tokens == 0.0)
            && (0 < limit <= 10 ==> u.capacity == 1.0)
            && (10 < limit <= 2_621_440 ==> u.capacity == limit as real / 10.0)
            && (limit > 2_621_440 ==> u.capacity == 262_144.0)
            && (limit > 0 ==>
                var held := Refilled(b, now).tokens;
                u.tokens == if held == 0.0 || held > u.capacity then u.capacity else held)
  {
    RefilledOk(b, now);
  }

  // ---------- the object ----------

  class SharedFairBudget {
    var limit: int
    var capacity: real
    var tokens: real
    var last: Stamp
    var waitingIngress: int
    var waitingEgress: int
    var prefer: Direction

    ghost function View(): Budget
      reads this
    {
      Budget(limit, capacity, tokens, last, waitingIngress, waitingEgress, prefer)
    }

    constructor (limit: int, now: int, stamp: int)
      ensures View() == WithLimit(Budget(0, 0.0, 0.0, Never, 0, 0, Ingress), limit, now, stamp)
    {
      this.limit := limit;
      last := At(stamp);
      waitingIngress, waitingEgress, prefer := 0, 0, Ingress;
      capacity := if limit <= 0 then 0.0 else Capacity(limit);
      tokens := if limit <= 0 then 0.0 else Capacity(limit);
    }

    method UpdateLimit(newLimit: int, now: int, stamp: int)
      modifies this
      ensures View() == WithLimit(old(View()), newLimit, now, stamp)
    {
      RefillLocked(now);
      limit, last := newLimit, At(stamp);
      if newLimit <= 0 {
        tokens, capacity := 0.0, 0.0;
        return;
      }
      capacity := Capacity(newLimit);
      if tokens <= 0.0 || tokens > capacity {
        tokens := capacity;
      }
    }

    method RefillLocked(now: int)
      modifies this`tokens, this`last
      ensures View() == Refilled(old(View()), now)
    {
      if limit <= 0 || last.Never? {
        last := At(now);
        return;
      }
      if now - last.ns > 0 {
        tokens := MinReal(capacity, tokens + Accrued(limit, now - last.ns));
        last := At(now);
      }
    }

    /** The entry of Reserve; `entered` says whether the loop follows. */
    method Enter(d: Direction, bytes: int) returns (entered: bool)
      modifies this
      ensures entered == (bytes > 0 && limit > 0)
      ensures View() == if entered then old(View()).AddWaiting(d, bytes) else old(View())
    {
      if bytes <= 0 || limit <= 0 {
        return false;
      }
      if d == Ingress {
        waitingIngress := waitingIngress + bytes;
      } else {
        waitingEgress := waitingEgress + bytes;
      }
      return true;
    }

    /** One turn of the loop of Reserve; `left` is what still has to be reserved after it. */
    method TakeTurn(d: Direction, remaining: int, now: int) returns (left: int)
      requires remaining > 0 && tokens >= 0.0 && capacity >= 0.0
      modifies this
      ensures (View(), remaining - left) == Turn(old(View()), d, remaining, now)
    {
      hide Share;
      if limit <= 0 {
        Discharge(d, remaining);
        return 0;
      }
      RefillLocked(now);
      var allowed := Allowed(d, remaining);
      if allowed > 0 {
        var contended := (if d == Ingress then waitingEgress else waitingIngress) > 0;
        tokens := tokens - allowed as real;
        Discharge(d, allowed);
        if contended {
          prefer := d.Other();
        }
        return remaining - allowed;
      }
      ShareFacts(View(), d, remaining);
      return remaining;
    }

    /** What the refilled budget lets this turn have. */
    method Allowed(d: Direction, remaining: int) returns (allowed: int)
      ensures allowed == Share(View(), d, remaining)
    {
      allowed := MinReal(remaining as real, MinReal(MAX_BLOCK as real, tokens)).Floor;
      if (if d == Ingress then waitingEgress else waitingIngress) > 0 && allowed > 0 {
        var share := (tokens / 2.0).Floor;
        if share == 0 && prefer == d {
          share := 1;
        }
        if share < allowed {
          allowed := share;
        }
      }
    }

    method Discharge(d: Direction, n: int)
      modifies this`waitingIngress, this`waitingEgress
      ensures View() == old(View()).AddWaiting(d, -n)
    {
      if d == Ingress {
        waitingIngress := waitingIngress - n;
      } else {
        waitingEgress := waitingEgress - n;
      }
    }
  }

  // ---------- any number of reservers ----------

  datatype Call = Call(direction: Direction, remaining: int)

  /** `lastContested` records the direction of the last grant made while the other direction waited. */
  datatype Shared = Shared(budget: Budget, calls: seq<Call>, lastContested: Option<Direction>)

  datatype Step =
    | Enter(direction: Direction, bytes: int)
    | Go(call: nat, now: int)
    | SetLimit(limit: int, now: int, stamp: int)

  ghost predicate Enabled(s: Shared, step: Step) {
    step.Go? ==> step.call < |s.calls| && s.calls[step.call].remaining > 0
  }

  function Admitted(s: Shared, step: Step): int {
    if step.Go? && step.call < |s.calls| && s.budget.limit > 0 then
      Turn(s.budget, s.calls[step.call].direction, s.calls[step.call].remaining, step.now).1
    else 0
  }

  /** A grant made while the other direction was waiting. */
  predicate ContestedGrant(s: Shared, step: Step) {
    step.Go? && step.call < |s.calls| && Admitted(s, step) > 0 &&
        s.budget.Waiting(s.calls[step.call].direction.Other()) > 0
  }

  function Exec(s: Shared, step: Step): Shared
    requires Enabled(s, step)
  {
    match step
    case Enter(d, bytes) =>
      if bytes <= 0 || s.budget.limit <= 0 then s
      else s.(budget := s.budget.AddWaiting(d, bytes), calls := s.calls + [Call(d, bytes)])
    case Go(i, now) =>
      var call := s.calls[i];
      var (b, n) := Turn(s.budget, call.direction, call.remaining, now);
      s.(budget := b, calls := s.calls[i := call.(remaining := call.remaining - n)],
         lastContested := if ContestedGrant(s, step) then Some(call.direction) else s.lastContested)
    case SetLimit(limit, now, stamp) => s.(budget := WithLimit(s.budget, limit, now, stamp))
  }

  function Pending(calls: seq<Call>, d: Direction): int {
    if calls == [] then 0 else (if calls[0].direction == d then calls[0].remaining else 0) + Pending(calls[1..], d)
  }

  ghost predicate Inv(s: Shared) {
    && BudgetOk(s.budget)
    && (forall i :: 0 <= i < |s.calls| ==> s.calls[i].remaining >= 0)
    && s.budget.ingress == Pending(s.calls, Ingress)
    && s.budget.egress == Pending(s.calls, Egress)
    && (s.lastContested.Some? ==> s.budget.prefer == s.lastContested.value.Other())
  }

  lemma PendingAppend(calls: seq<Call>, c: Call, d: Direction)
    ensures Pending(calls + [c], d) == Pending(calls, d) + Pending([c], d)
  {
    if calls != [] {
      assert (calls + [c])[1..] == calls[1..] + [c];
    }
  }

  lemma PendingUpdate(calls: seq<Call>, i: nat, c: Call, d: Direction)
    requires i < |calls|
    ensures Pending(calls[i := c], d) == Pending(calls, d) - Pending([calls[i]], d) + Pending([c], d)
  {
    if i == 0 {
      assert calls[0 := c][1..] == calls[1..];
    } else {
      assert calls[i := c][1..] == calls[1..][i - 1 := c];
      PendingUpdate(calls[1..], i - 1, c, d);
    }
  }

  lemma PendingCovers(calls: seq<Call>, i: nat)
    requires i < |calls| && forall k :: 0 <= k < |calls| ==> calls[k].remaining >= 0
    ensures calls[i].remaining <= Pending(calls, calls[i].direction)
    ensures Pending(calls, Ingress) >= 0 && Pending(calls, Egress) >= 0
  {
    if i > 0 {
      PendingCovers(calls[1..], i - 1);
    } else if |calls| > 1 {
      PendingCovers(calls[1..], 0);
    }
  }

  /** Tokens stay in range, each waiting counter is the sum of what the pending calls of that
      direction still need, and the preference points away from the last contested grant: every
      step keeps all three, changes of the limit included. */
  lemma {:induction false} ExecKeepsInv(s: Shared, step: Step)
    requires Inv(s) && Enabled(s, step)
    ensures Inv(Exec(s, step))
  {
    match step
    case Enter(d, bytes) =>
      PendingAppend(s.calls, Call(d, bytes), Ingress);
      PendingAppend(s.calls, Call(d, bytes), Egress);
    case Go(i, now) => GoKeepsInv(s, i, now);
    case SetLimit(limit, now, stamp) =>
      RefilledOk(s.budget, now);
  }

  lemma {:induction false} GoKeepsInv(s: Shared, i: nat, now: int)
    requires Inv(s) && Enabled(s, Go(i, now))
    ensures Inv(Exec(s, Go(i, now)))
  {
    hide Accrued, BudgetOk, Share, Refilled;
    var call := s.calls[i];
    PendingCovers(s.calls, i);
    assert BudgetOk(s.budget);
    TurnFacts(s.budget, call.direction, call.remaining, now);
    TurnPrefers(s.budget, call.direction, call.remaining, now);
    var left := call.(remaining := call.remaining - Turn(s.budget, call.direction, call.remaining, now).1);
    PendingUpdate(s.calls, i, left, Ingress);
    PendingUpdate(s.calls, i, left, Egress);
  }

  lemma TurnPrefers(b: Budget, d: Direction, remaining: int, now: int)
    ensures var (t, n) := Turn(b, d, remaining, now);
            t.prefer == if b.limit > 0 && n > 0 && b.Waiting(d.Other()) > 0 then d.Other() else b.prefer
  {
  }

  // ---------- runs ----------

  ghost predicate Legal(s: Shared, steps: seq<Step>)
    decreases |steps|
  {
    steps == [] || (Enabled(s, steps[0]) && Legal(Exec(s, steps[0]), steps[1..]))
  }

  ghost function Run(s: Shared, steps: seq<Step>): Shared
    requires Legal(s, steps)
    decreases |steps|
  {
    if steps == [] then s else Run(Exec(s, steps[0]), steps[1..])
  }

  ghost function TotalAdmitted(s: Shared, steps: seq<Step>): int
    requires Legal(s, steps)
    decreases |steps|
  {
    if steps == [] then 0 else Admitted(s, steps[0]) + TotalAdmitted(Exec(s, steps[0]), steps[1..])
  }

  /** Every run from a fresh budget: whatever the reservers, clock readings and limit changes. */
  lemma {:induction false} CountersMatchPendingCalls(s: Shared, steps: seq<Step>)
    requires Inv(s) && Legal(s, steps)
    ensures var t := Run(s, steps);
            && Inv(t)
            && 0.0 <= t.budget.tokens <= t.budget.capacity
            && t.budget.Waiting(Ingress) == Pending(t.calls, Ingress)
            && t.budget.Waiting(Egress) == Pending(t.calls, Egress)
    decreases |steps|
  {
    hide Exec, Enabled;
    if steps != [] {
      ExecKeepsInv(s, steps[0]);
      CountersMatchPendingCalls(Exec(s, steps[0]), steps[1..]);
    }
  }

  lemma FreshBudgetInv(limit: int, now: int, stamp: int)
    ensures Inv(Shared(WithLimit(Budget(0, 0.0, 0.0, Never, 0, 0, Ingress), limit, now, stamp), [], None))
  {
  }

  ghost predicate NoContestedGrant(s: Shared, steps: seq<Step>)
    requires Legal(s, steps)
    decreases |steps|
  {
    steps == [] || (!ContestedGrant(s, steps[0]) && NoContestedGrant(Exec(s, steps[0]), steps[1..]))
  }

  lemma {:induction false} LastContestedKept(s: Shared, steps: seq<Step>)
    requires Legal(s, steps) && NoContestedGrant(s, steps)
    ensures Run(s, steps).lastContested == s.lastContested
    decreases |steps|
  {
    if steps != [] {
      LastContestedKept(Exec(s, steps[0]), steps[1..]);
    }
  }

  /** Grants alternate strictly under contention: after a contested grant and any steps without
      another one, a contested grant made from fewer than two tokens is one byte for the other
      direction. */
  lemma {:induction false} ScarceGrantsAlternate(s: Shared, first: Step, mid: seq<Step>, second: Step)
    requires Inv(s) && Enabled(s, first) && ContestedGrant(s, first)
    requires Legal(Exec(s, first), mid) && NoContestedGrant(Exec(s, first), mid)
    requires var t := Run(Exec(s, first), mid);
             && Enabled(t, second) && ContestedGrant(t, second)
             && Refilled(t.budget, second.now).tokens < 2.0
    ensures var t := Run(Exec(s, first), mid);
            && t.calls[second.call].direction == s.calls[first.call].direction.Other()
            && Admitted(t, second) == 1
  {
    var m := Exec(s, first);
    var t := Run(m, mid);
    assert m.lastContested == Some(s.calls[first.call].direction);
    ExecKeepsInv(s, first);
    CountersMatchPendingCalls(m, mid);
    LastContestedKept(m, mid);
    hide Exec, Run, Share, Refilled;
    RefilledOk(t.budget, second.now);
    RefilledFrame(t.budget, second.now);
    ShareFacts(Refilled(t.budget, second.now), t.calls[second.call].direction, t.calls[second.call].remaining);
  }

  lemma RefilledFrame(b: Budget, now: int)
    ensures var r := Refilled(b, now);
            r.ingress == b.ingress && r.egress == b.egress && r.prefer == b.prefer && r.limit == b.limit
  {
  }

  // ---------- the rate for a fixed limit ----------

  /** The bucket inside the budget. */
  function Bucket(b: Budget): Slot {
    Slot(b.limit, b.capacity, b.tokens, b.last)
  }

  lemma RefilledKeepsHeadroom(b: Budget, from: int, to: int, now: int)
    requires BudgetOk(b) && b.limit > 0 && from <= now <= to
    ensures var r := Refilled(b, now);
            r.last.At? && from <= r.last.ns && Headroom(Bucket(r), from, to) <= Headroom(Bucket(b), from, to)
  {
    hide Accrued, Capacity, Headroom;
    assert Bucket(Refilled(b, now)) == Refill(Bucket(b), now);
    RefillKeepsHeadroom(Bucket(b), from, to, now);
  }

  lemma {:induction false} StepKeepsHeadroom(s: Shared, step: Step, from: int, to: int)
    requires Inv(s) && Enabled(s, step) && s.budget.limit > 0 && !step.SetLimit? &&
              (step.Go? ==> from <= step.now <= to)
    ensures var t := Exec(s, step).budget;
            && t.limit == s.budget.limit && t.capacity == s.budget.capacity
            && Admitted(s, step) as real + Headroom(Bucket(t), from, to) <= Headroom(Bucket(s.budget), from, to)
  {
    hide Accrued, Capacity, Share, Refilled;
    if step.Go? {
      RefilledKeepsHeadroom(s.budget, from, to, step.now);
      RefilledFrame(s.budget, step.now);
      var call := s.calls[step.call];
      PendingCovers(s.calls, step.call);
      TurnFacts(s.budget, call.direction, call.remaining, step.now);
    }
  }

  /** While the limit is fixed, turns stamped within a window admit at most one capacity plus the
      limit times the length of the window, over all reservers together. */
  lemma {:induction false} AdmittedWithinRate(s: Shared, steps: seq<Step>, from: int, to: int)
    requires Inv(s) && Legal(s, steps) && s.budget.limit > 0 && from <= to
    requires forall i :: 0 <= i < |steps| ==> !steps[i].SetLimit? && (steps[i].Go? ==> from <= steps[i].now <= to)
    ensures TotalAdmitted(s, steps) as real +
              Headroom(Bucket(Run(s, steps).budget), from, to) <= Headroom(Bucket(s.budget), from, to)
    ensures TotalAdmitted(s, steps) as real <= s.budget.capacity + Accrued(s.budget.limit, to - from)
    decreases |steps|
  {
    hide Exec, Enabled, Admitted, Accrued, Capacity;
    HeadroomBounds(Bucket(s.budget), from, to);
    if steps != [] {
      StepKeepsHeadroom(s, steps[0], from, to);
      ExecKeepsInv(s, steps[0]);
      AdmittedWithinRate(Exec(s, steps[0]), steps[1..], from, to);
      HeadroomBounds(Bucket(Exec(s, steps[0]).budget), from, to);
      CountersMatchPendingCalls(s, steps);
      LimitFixed(s, steps);
      HeadroomBounds(Bucket(Run(s, steps).budget), from, to);
    }
  }

  lemma {:induction false} LimitFixed(s: Shared, steps: seq<Step>)
    requires Legal(s, steps) && s.budget.limit > 0
    requires forall i :: 0 <= i < |steps| ==> !steps[i].SetLimit?
    ensures Run(s, steps).budget.limit == s.budget.limit
    decreases |steps|
  {
    hide Accrued, Share;
    if steps != [] {
      LimitFixed(Exec(s, steps[0]), steps[1..]);
    }
  }

  // ---------- progress ----------

  lemma {:induction false} SomeonePends(calls: seq<Call>, d: Direction) returns (i: nat)
    requires Pending(calls, d) > 0 && forall k :: 0 <= k < |calls| ==> calls[k].remaining >= 0
    ensures i < |calls| && calls[i].direction == d && calls[i].remaining > 0
  {
    if calls[0].direction == d && calls[0].remaining > 0 {
      i := 0;
    } else {
      var j := SomeonePends(calls[1..], d);
      i := j + 1;
    }
  }

  /** A second after the last refill the bucket is full and holds at least one token. */
  lemma FullAfterASecond(b: Budget)
    requires BudgetOk(b) && b.limit > 0
    ensures var r := Refilled(b, b.last.ns + SECOND); r.tokens == r.capacity >= 1.0
  {
    assert Accrued(b.limit, SECOND) == b.limit as real;
  }

  lemma ShareIsPositive(b: Budget, d: Direction, remaining: int)
    requires b.tokens >= 1.0 && remaining > 0 && (b.Waiting(d.Other()) > 0 ==> b.prefer == d)
    ensures Share(b, d, remaining) >= 1
  {
    var m := MinReal(remaining as real, MinReal(MAX_BLOCK as real, b.tokens));
    assert m >= 1.0;
  }

  /** While a limited budget has a pending call, a turn admits at least one byte, at the latest a second
      after the last refill: that call's, or one of the other direction whose turn it is. */
  lemma {:induction false} SomeTurnAdmits(s: Shared, i: nat) returns (k: nat, now: int)
    requires Inv(s) && s.budget.limit > 0 && i < |s.calls| && s.calls[i].remaining > 0
    ensures Enabled(s, Go(k, now)) && now == s.budget.last.ns + SECOND && Admitted(s, Go(k, now)) >= 1
    ensures k != i ==> s.calls[k].direction == s.calls[i].direction.Other() == s.budget.prefer
  {
    hide Pending, Accrued, Capacity, Share, Refilled;
    var d := s.calls[i].direction;
    now := s.budget.last.ns + SECOND;
    FullAfterASecond(s.budget);
    RefilledFrame(s.budget, now);
    k := i;
    if s.budget.Waiting(d.Other()) > 0 && s.budget.prefer != d {
      k := SomeonePends(s.calls, d.Other());
    }
    ShareIsPositive(Refilled(s.budget, now), s.calls[k].direction, s.calls[k].remaining);
  }

  function Work(s: Shared): int {
    Pending(s.calls, Ingress) + Pending(s.calls, Egress)
  }

  lemma TurnLowersWork(s: Shared, i: nat, now: int)
    requires Inv(s) && Enabled(s, Go(i, now)) && s.budget.limit > 0
    ensures var t := Exec(s, Go(i, now));
            && Work(t) == Work(s) - Admitted(s, Go(i, now)) && t.budget.limit == s.budget.limit &&
                |t.calls| == |s.calls|
            && forall k :: 0 <= k < |s.calls| ==> t.calls[k].direction == s.calls[k].direction
  {
    hide Turn, Pending;
    var call := s.calls[i];
    PendingCovers(s.calls, i);
    TurnFacts(s.budget, call.direction, call.remaining, now);
    var left := call.(remaining := call.remaining - Turn(s.budget, call.direction, call.remaining, now).1);
    PendingUpdate(s.calls, i, left, Ingress);
    PendingUpdate(s.calls, i, left, Egress);
    PendingOne(call, left);
  }

  lemma PendingOne(call: Call, left: Call)
    requires call.direction == left.direction
    ensures forall d :: Pending([call], d) - Pending([left], d) == if d ==
              call.direction then call.remaining - left.remaining else 0
  {
  }

  /** Every pending call of a limited budget can finish, whatever the others want. */
  lemma {:induction false} EveryCallCanFinish(s: Shared) returns (steps: seq<Step>)
    requires Inv(s) && s.budget.limit > 0
    ensures Legal(s, steps) && forall n :: 0 <= n < |steps| ==> steps[n].Go?
    ensures var t := Run(s, steps);
            |t.calls| == |s.calls| && forall i :: 0 <= i < |t.calls| ==> t.calls[i].remaining == 0
    decreases Work(s)
  {
    hide Exec, Enabled, Admitted, Pending;
    if i :| 0 <= i < |s.calls| && s.calls[i].remaining > 0 {
      PendingCovers(s.calls, i);
      var k, now := SomeTurnAdmits(s, i);
      var step := Go(k, now);
      TurnLowersWork(s, k, now);
      ExecKeepsInv(s, step);
      WorkIsNatural(s);
      var rest := EveryCallCanFinish(Exec(s, step));
      assert ([step] + rest)[1..] == rest;
      steps := [step] + rest;
    } else {
      steps := [];
    }
  }

  lemma WorkIsNatural(s: Shared)
    requires Inv(s)
    ensures Work(s) >= 0
  {
    hide Pending;
  }

  // ---------- every fair schedule finishes ----------

  /** From `ripe` on a refill fills the bucket. */
  predicate RipeAt(b: Budget, ripe: int) {
    b.tokens == b.capacity || (b.last.At? && b.last.ns + SECOND <= ripe)
  }

  lemma RipeIsFull(b: Budget, ripe: int, now: int)
    requires BudgetOk(b) && b.limit > 0 && RipeAt(b, ripe) && ripe <= now
    ensures var r := Refilled(b, now); r.tokens == r.capacity >= 1.0
  {
    if b.last.ns < now {
      assert Accrued(b.limit, SECOND) == b.limit as real;
      if b.last.ns + SECOND <= now {
        AccruedMonotone(b.limit, SECOND, now - b.last.ns);
      }
    }
  }

  /** A call whose turn admits something from a full bucket. */
  predicate Favoured(s: Shared, k: nat) {
    && k < |s.calls| && s.calls[k].remaining > 0
    && (s.budget.Waiting(s.calls[k].direction.Other()) > 0 ==> s.budget.prefer == s.calls[k].direction)
  }

  lemma {:induction false} SomeoneIsFavoured(s: Shared, i: nat) returns (k: nat)
    requires Inv(s) && i < |s.calls| && s.calls[i].remaining > 0
    ensures Favoured(s, k)
  {
    hide Pending;
    var d := s.calls[i].direction;
    k := i;
    if s.budget.Waiting(d.Other()) > 0 && s.budget.prefer != d {
      k := SomeonePends(s.calls, d.Other());
    }
  }

  /** The turn of a favoured call admits something; a turn that admits nothing leaves everybody as they
      were, and the bucket full. */
  lemma {:induction false} RipeTurn(s: Shared, step: Step, ripe: int, k: nat)
    requires Inv(s) && s.budget.limit > 0 && RipeAt(s.budget, ripe) && Favoured(s, k)
    requires Enabled(s, step) && step.Go? && ripe <= step.now
    ensures Admitted(s, step) >= 0 && (step.call == k ==> Admitted(s, step) >= 1)
    ensures Admitted(s, step) == 0 ==>
              var t := Exec(s, step);
              t.calls == s.calls && RipeAt(t.budget, ripe) && Favoured(t, k) && t.budget.limit > 0
  {
    hide Pending, Accrued, Capacity, Share, Refilled;
    var call := s.calls[step.call];
    RipeIsFull(s.budget, ripe, step.now);
    RefilledFrame(s.budget, step.now);
    ShareFacts(Refilled(s.budget, step.now), call.direction, call.remaining);
    if step.call == k {
      ShareIsPositive(Refilled(s.budget, step.now), call.direction, call.remaining);
    }
    if Admitted(s, step) == 0 {
      assert s.calls[step.call := call] == s.calls;
    }
  }

  /** A round: turns only, none before a second after the last refill, one at least for every pending call. */
  ghost predicate Round(s: Shared, steps: seq<Step>) {
    && Legal(s, steps)
    && (forall n :: 0 <= n < |steps| ==> steps[n].Go? && s.budget.last.At? && steps[n].now >= s.budget.last.ns + SECOND)
    && (forall i :: 0 <= i < |s.calls| && s.calls[i].remaining > 0 ==> HasTurn(steps, i))
  }

  predicate HasTurn(steps: seq<Step>, i: nat) {
    exists n :: 0 <= n < |steps| && steps[n].Go? && steps[n].call == i
  }

  lemma {:induction false} TurnsAdmitSomething(s: Shared, steps: seq<Step>, ripe: int, k: nat)
    requires Inv(s) && Legal(s, steps) && s.budget.limit > 0 && RipeAt(s.budget, ripe) && Favoured(s, k)
    requires forall n :: 0 <= n < |steps| ==> steps[n].Go? && ripe <= steps[n].now
    requires HasTurn(steps, k)
    ensures TotalAdmitted(s, steps) >= 1
    decreases |steps|
  {
    hide Exec, Enabled, Admitted, Inv, RipeAt, Favoured;
    var step, rest := steps[0], steps[1..];
    RipeTurn(s, step, ripe, k);
    ExecKeepsInv(s, step);
    var t := Exec(s, step);
    if Admitted(s, step) == 0 {
      var n :| 0 <= n < |steps| && steps[n].Go? && steps[n].call == k;
      assert n > 0 && rest[n - 1] == steps[n];
      TurnsAdmitSomething(t, rest, ripe, k);
    } else {
      LimitKept(s, step);
      TurnsAdmitNothingNegative(t, rest);
    }
  }

  lemma LimitKept(s: Shared, step: Step)
    requires Enabled(s, step) && step.Go?
    ensures Exec(s, step).budget.limit == s.budget.limit
  {
    hide Share, Accrued;
  }

  lemma {:induction false} TurnsAdmitNothingNegative(s: Shared, steps: seq<Step>)
    requires Inv(s) && Legal(s, steps) && s.budget.limit > 0 && forall n :: 0 <= n < |steps| ==> steps[n].Go?
    ensures TotalAdmitted(s, steps) >= 0 && Run(s, steps).budget.limit > 0
    ensures Work(Run(s, steps)) == Work(s) - TotalAdmitted(s, steps)
    ensures |Run(s, steps).calls| == |s.calls|
    decreases |steps|
  {
    hide Exec, Enabled, Admitted, Inv, Work;
    if steps != [] {
      var step := steps[0];
      ExecKeepsInv(s, step);
      LimitKept(s, step);
      AdmittedIsNatural(s, step);
      TurnLowersWork(s, step.call, step.now);
      assert step == Go(step.call, step.now);
      TurnsAdmitNothingNegative(Exec(s, step), steps[1..]);
    }
  }

  lemma AdmittedIsNatural(s: Shared, step: Step)
    requires Inv(s) && Enabled(s, step)
    ensures Admitted(s, step) >= 0
  {
    hide Pending, Turn;
    if step.Go? {
      var call := s.calls[step.call];
      PendingCovers(s.calls, step.call);
      TurnFacts(s.budget, call.direction, call.remaining, step.now);
    }
  }

  /** The rounds of a schedule, one after the other. */
  ghost predicate Rounds(s: Shared, rounds: seq<seq<Step>>)
    decreases |rounds|
  {
    rounds == [] || (Round(s, rounds[0]) && Rounds(Run(s, rounds[0]), rounds[1..]))
  }

  ghost function AfterRounds(s: Shared, rounds: seq<seq<Step>>): Shared
    requires Rounds(s, rounds)
    decreases |rounds|
  {
    if rounds == [] then s else AfterRounds(Run(s, rounds[0]), rounds[1..])
  }

  predicate AllDone(s: Shared) {
    forall i :: 0 <= i < |s.calls| ==> s.calls[i].remaining == 0
  }

  lemma {:induction false} RoundLowersWork(s: Shared, steps: seq<Step>)
    requires Inv(s) && s.budget.limit > 0 && Round(s, steps)
    ensures var t := Run(s, steps);
            && Inv(t) && t.budget.limit > 0 && |t.calls| == |s.calls|
            && Work(t) <= Work(s) && (!AllDone(s) ==> Work(t) < Work(s))
  {
    hide Inv, Work, Favoured, RipeAt;
    CountersMatchPendingCalls(s, steps);
    TurnsAdmitNothingNegative(s, steps);
    if !AllDone(s) {
      RemainingIsNatural(s);
      var i :| 0 <= i < |s.calls| && s.calls[i].remaining != 0;
      var k := SomeoneIsFavoured(s, i);
      FavouredPends(s, k);
      var ripe := RipeSoon(s);
      TurnsAdmitSomething(s, steps, ripe, k);
    }
  }

  lemma RemainingIsNatural(s: Shared)
    requires Inv(s)
    ensures forall i :: 0 <= i < |s.calls| ==> s.calls[i].remaining >= 0
  {
    hide Pending;
  }

  lemma FavouredPends(s: Shared, k: nat)
    requires Favoured(s, k)
    ensures k < |s.calls| && s.calls[k].remaining > 0
  {
  }

  lemma RipeSoon(s: Shared) returns (ripe: int)
    requires Inv(s) && s.budget.limit > 0
    ensures s.budget.last.At? && ripe == s.budget.last.ns + SECOND && RipeAt(s.budget, ripe)
  {
    hide Pending;
    ripe := s.budget.last.ns + SECOND;
  }

  lemma {:induction false} NoWorkLeft(s: Shared)
    requires Inv(s) && Work(s) <= 0
    ensures AllDone(s)
  {
    forall i | 0 <= i < |s.calls| ensures s.calls[i].remaining == 0 {
      PendingCovers(s.calls, i);
    }
  }

  /** Every schedule in which each pending call gets its turn in each round, and a second passes between
      rounds, finishes every call: within as many rounds as there are bytes to admit. */
  lemma {:induction false} EveryFairScheduleFinishes(s: Shared, rounds: seq<seq<Step>>)
    requires Inv(s) && s.budget.limit > 0 && Rounds(s, rounds) && |rounds| >= Work(s)
    ensures AllDone(AfterRounds(s, rounds)) && |AfterRounds(s, rounds).calls| == |s.calls|
    decreases |rounds|
  {
    hide Inv, Work, Round, AllDone;
    if rounds == [] {
      NoWorkLeft(s);
    } else {
      RoundIsLegal(s, rounds[0]);
      RoundLowersWork(s, rounds[0]);
      var t := Run(s, rounds[0]);
      if AllDone(s) {
        DoneStaysDone(s, rounds);
      } else {
        EveryFairScheduleFinishes(t, rounds[1..]);
      }
    }
  }

  lemma RoundIsLegal(s: Shared, steps: seq<Step>)
    requires Round(s, steps)
    ensures Legal(s, steps)
  {
  }

  lemma {:induction false} DoneStaysDone(s: Shared, rounds: seq<seq<Step>>)
    requires Rounds(s, rounds) && AllDone(s)
    ensures AfterRounds(s, rounds) == s
    decreases |rounds|
  {
    if rounds != [] {
      assert rounds[0] == [];
      DoneStaysDone(s, rounds[1..]);
    }
  }

  // ---------- every byte is accounted for ----------

  /** Bytes that start to wait in this direction. */
  function Entered(s: Shared, step: Step, d: Direction): int {
    if step.Enter? && step.direction == d && step.bytes > 0 && s.budget.limit > 0 then step.bytes else 0
  }

  /** Bytes that a turn in this direction lets through. */
  function LetThrough(s: Shared, step: Step, d: Direction): int
    requires Enabled(s, step)
  {
    if step.Go? && s.calls[step.call].direction == d
    then Turn(s.budget, d, s.calls[step.call].remaining, step.now).1 else 0
  }

  ghost function Balance(s: Shared, steps: seq<Step>, d: Direction): int
    requires Legal(s, steps)
    decreases |steps|
  {
    if steps == [] then 0
    else Entered(s, steps[0], d) - LetThrough(s, steps[0], d) + Balance(Exec(s, steps[0]), steps[1..], d)
  }

  lemma StepBalances(s: Shared, step: Step, d: Direction)
    requires Enabled(s, step)
    ensures Pending(Exec(s, step).calls, d) == Pending(s.calls, d) + Entered(s, step, d) - LetThrough(s, step, d)
    ensures step.SetLimit? ==> Exec(s, step).budget.limit == step.limit
  {
    hide Turn, Refilled;
    match step
    case Enter(direction, bytes) => PendingAppend(s.calls, Call(direction, bytes), d);
    case Go(i, now) =>
      var call := s.calls[i];
      var left := call.(remaining := call.remaining - Turn(s.budget, call.direction, call.remaining, now).1);
      PendingUpdate(s.calls, i, left, d);
    case SetLimit(_, _, _) =>
  }

  /** In every run, for each direction, the bytes that wait at the end are those that waited at the beginning
      and those that entered, less those that turns let through. */
  lemma {:induction false} BytesAreConserved(s: Shared, steps: seq<Step>, d: Direction)
    requires Legal(s, steps)
    ensures Pending(Run(s, steps).calls, d) == Pending(s.calls, d) + Balance(s, steps, d)
    decreases |steps|
  {
    hide Exec, Enabled, Entered, LetThrough;
    if steps != [] {
      StepBalances(s, steps[0], d);
      BytesAreConserved(Exec(s, steps[0]), steps[1..], d);
    }
  }
}
