/** Charging several token buckets at once, and copying a stream under them
    (internal/server/bandwidth.go).  The callers here are alone: concurrent callers of one slot are
    the subject of BudgetSlot.RateOverWindow, concurrent lockers of several that of SlotLocking. */
module Bandwidth {
  import opened Durations
  import opened BudgetSlot
  import opened Bytes

  /** A clock that never runs back. */
  class Clock {
    var now: int

    constructor (start: int)
      ensures now == start
    {
      now := start;
    }

    method Now() returns (t: int)
      modifies this
      ensures t == now >= old(now)
    {
      var d: nat :| true;
      now := now + d;
      t := now;
    }

    method Sleep(d: int)
      modifies this
      ensures now >= old(now) + d && now >= old(now)
    {
      var extra: nat :| true;
      now := now + (if d > 0 then d else 0) + extra;
    }
  }

  /** A bucket that has let through `net` bytes since `since` under its present limit: what it let
      through and what it still holds came from one capacity and the rate. */
  ghost predicate WithinRate(s: Slot, net: int, since: int) {
    s.limit > 0 ==>
      && s.last.At? && since <= s.last.ns
      && net as real + s.tokens <= s.capacity + Accrued(s.limit, s.last.ns - since)
  }

  lemma RefillWithinRate(s: Slot, net: int, since: int, now: int)
    requires SlotOk(s) && WithinRate(s, net, since)
    ensures WithinRate(Refill(s, now), net, since)
  {
    if s.limit > 0 {
      AccruedAdds(s.limit, s.last.ns - since, now - s.last.ns);
    }
  }

  class Bucket {
    var limit: int
    var capacity: real
    var tokens: real
    var last: Stamp
    // since the present limit was set: when that was, and bytes charged and given back while limited
    ghost var since: int
    ghost var taken: int
    ghost var refunded: int

    ghost function View(): Slot
      reads this
    {
      Slot(limit, capacity, tokens, last)
    }

    ghost function Net(): int
      reads this
    {
      taken - refunded
    }

    ghost predicate Valid()
      reads this
    {
      SlotOk(View()) && WithinRate(View(), taken - refunded, since)
    }

    constructor (limit: int, now: int)
      ensures Valid() && View() == UpdateLimit(Slot(0, 0.0, 0.0, Never), now, limit)
      ensures taken == refunded == 0 && since == now
    {
      this.limit := limit;
      last := At(now);
      capacity := if limit <= 0 then 0.0 else limit as real;
      tokens := if limit <= 0 then 0.0 else limit as real;
      since, taken, refunded := now, 0, 0;
    }

    method SetLimit(newLimit: int, now: int)
      requires Valid()
      modifies this
      ensures Valid() && View() == UpdateLimit(old(View()), now, newLimit)
      ensures taken == refunded == 0 && since == now
    {
      if limit > 0 {
        RefillLocked(now);
      }
      since, taken, refunded := now, 0, 0;
      limit := newLimit;
      last := At(now);
      if newLimit <= 0 {
        capacity, tokens := 0.0, 0.0;
        return;
      }
      capacity := newLimit as real;
      if tokens <= 0.0 {
        tokens := capacity;
        return;
      }
      if tokens > capacity {
        tokens := capacity;
      }
    }

    method RefillLocked(now: int)
      requires Valid()
      modifies this`tokens, this`last
      ensures Valid() && View() == Refill(old(View()), now)
    {
      RefillWithinRate(View(), taken - refunded, since, now);
      if limit <= 0 {
        last := At(now);
        return;
      }
      // the constructor stamps every bucket, so `Never` is met only by a zero value
      var unstamped := last.Never?;
      if !unstamped && now - last.ns <= 0 {
        return;
      }
      tokens := if unstamped then (if tokens <= 0.0 then capacity else tokens)
                else MinReal(capacity, tokens + Accrued(limit, now - last.ns));
      last := At(now);
    }

    method PreviewLocked(now: int, maxBytes: int) returns (allowed: int)
      requires Valid()
      modifies this`tokens, this`last
      ensures Valid() && (View(), allowed) == Preview(old(View()), now, maxBytes)
    {
      if maxBytes <= 0 {
        return 0;
      }
      if limit <= 0 {
        return maxBytes;
      }
      RefillLocked(now);
      if tokens < 1.0 {
        return 0;
      }
      allowed := tokens.Floor;
      if allowed > maxBytes {
        allowed := maxBytes;
      }
    }

    method TakeLocked(now: int, maxBytes: int) returns (allowed: int)
      requires Valid()
      modifies this`tokens, this`last, this`taken
      ensures Valid() && (View(), allowed) == Take(old(View()), now, maxBytes)
      ensures taken == old(taken) + if limit > 0 then allowed else 0
    {
      allowed := PreviewLocked(now, maxBytes);
      if limit > 0 && allowed > 0 {
        taken := taken + allowed;
        tokens := tokens - allowed as real;
        tokens := if tokens < 0.0 then 0.0 else tokens;
      }
    }

    method RefundLocked(now: int, bytes: int)
      requires Valid()
      modifies this`tokens, this`last, this`refunded
      ensures Valid() && View() == Refund(old(View()), now, bytes)
      ensures refunded == old(refunded) + if limit > 0 && bytes > 0 then bytes else 0
    {
      if bytes <= 0 || limit <= 0 {
        return;
      }
      RefillLocked(now);
      tokens := MinReal(capacity, tokens + bytes as real);
      refunded := refunded + bytes;
    }

    method WaitLocked(now: int) returns (wait: int)
      requires Valid()
      modifies this`tokens, this`last
      ensures Valid() && (View(), wait) == Wait(old(View()), now)
    {
      if limit <= 0 {
        return 0;
      }
      RefillLocked(now);
      if tokens >= 1.0 {
        return 0;
      }
      var seconds := (1.0 - tokens) / limit as real;
      if seconds <= 0.0 {
        return 0;
      }
      wait := Ceil(seconds * SECOND as real);
    }
  }

  // ---------- several buckets ----------

  ghost predicate Distinct(slots: seq<Bucket>) {
    forall i, j :: 0 <= i < j < |slots| ==> slots[i] != slots[j]
  }

  ghost predicate SettledAt(s: Slot, now: int) {
    SlotOk(s) && (s.last.At? ==> s.last.ns <= now)
  }

  ghost predicate Fine(b: Bucket, now: int)
    reads b
  {
    b.Valid() && SettledAt(b.View(), now)
  }

  /** Every bucket is in range and was last refilled no later than `now`. */
  ghost predicate Settled(slots: seq<Bucket>, now: int)
    reads slots
  {
    forall i :: 0 <= i < |slots| ==> Fine(slots[i], now)
  }

  /** What a bucket is charged for `bytes`: unlimited buckets keep no account. */
  function Share(limit: int, bytes: int): int {
    if limit > 0 then bytes else 0
  }

  /** Whole tokens a limited bucket can give at `now`. */
  ghost function Permits(s: Slot, now: int): int {
    if Refill(s, now).tokens < 1.0 then 0 else Refill(s, now).tokens.Floor
  }

  ghost predicate Allows(s: Slot, now: int, n: int) {
    s.limit > 0 ==> n <= Permits(s, now)
  }

  ghost predicate AllAllow(slots: seq<Bucket>, now: int, n: int)
    reads slots
  {
    forall i :: 0 <= i < |slots| ==> Allows(slots[i].View(), now, n)
  }

  /** This bucket permits `n` and no more. */
  ghost predicate Binding(s: Slot, now: int, n: int) {
    s.limit > 0 && n == Permits(s, now)
  }

  lemma PreviewFacts(s: Slot, now: int, m: int)
    requires SettledAt(s, now) && m >= 0
    ensures var (r, a) := Preview(s, now, m);
            && SettledAt(r, now) && (r == s || r == Refill(s, now))
            && 0 <= a <= m && Allows(r, now, a) && (a < m ==> Binding(r, now, a))
            && (Ready(s, now) && m > 0 ==> a > 0)
  {
    RefillIdempotent(s, now);
  }

  lemma PreviewGains(s: Slot, now: int, m: int)
    requires SettledAt(s, now)
    ensures Preview(s, now, m).0.tokens >= s.tokens
  {
    hide Accrued;
    RefillGains(s, now);
  }

  ghost predicate AllReady(slots: seq<Bucket>, now: int)
    reads slots
  {
    forall i :: 0 <= i < |slots| ==> Ready(slots[i].View(), now)
  }

  /** The preview pass finds the largest amount not above the request that every limited bucket
      permits.  A bucket that comes after the amount has dropped to zero is not even refilled. */
  method PreviewAll(slots: seq<Bucket>, now: int, maxBytes: int) returns (allowed: int)
    requires Distinct(slots) && Settled(slots, now) && maxBytes > 0
    modifies slots`tokens, slots`last
    ensures Settled(slots, now)
    ensures 0 <= allowed <= maxBytes && AllAllow(slots, now, allowed)
    ensures old(AllReady(slots, now)) ==> allowed > 0
    ensures allowed == maxBytes || exists i :: 0 <= i < |slots| && Binding(slots[i].View(), now, allowed)
    ensures forall i :: 0 <= i < |slots| ==>
              slots[i].View() == old(slots[i].View()) || slots[i].View() == Refill(old(slots[i].View()), now)
    ensures forall i :: 0 <= i < |slots| ==> slots[i].tokens >= old(slots[i].tokens)
  {
    hide Refill, Preview, Ready, SettledAt, SlotOk, WithinRate, Permits;
    allowed := maxBytes;
    for k := 0 to |slots|
      invariant Settled(slots, now) && 0 <= allowed <= maxBytes && (old(AllReady(slots, now)) ==> allowed > 0)
      invariant forall i :: 0 <= i < k ==> Allows(slots[i].View(), now, allowed)
      invariant allowed == maxBytes || exists i :: 0 <= i < k && Binding(slots[i].View(), now, allowed)
      invariant forall i :: 0 <= i < |slots| ==>
                  slots[i].View() == old(slots[i].View()) ||
                      (i < k && slots[i].View() == Refill(old(slots[i].View()), now))
      invariant forall i :: 0 <= i < |slots| ==> slots[i].tokens >= old(slots[i].tokens)
    {
      PreviewFacts(slots[k].View(), now, allowed);
      PreviewGains(slots[k].View(), now, allowed);
      label before:
      var preview := slots[k].PreviewLocked(now, allowed);
      assert forall i :: 0 <= i < |slots| && i != k ==> slots[i].View() == old@before(slots[i].View());
      if preview < allowed {
        allowed := preview;
      }
    }
  }

  /** A bucket after `n` bytes were taken from it at `now`. */
  ghost function Charged(s: Slot, now: int, n: int): Slot {
    if s.limit > 0 then Refill(s, now).(tokens := Refill(s, now).tokens - n as real) else s
  }

  lemma TakeFacts(s: Slot, now: int, n: int)
    requires SettledAt(s, now) && n > 0 && Allows(s, now, n)
    ensures Take(s, now, n) == (Charged(s, now, n), n) && SettledAt(Charged(s, now, n), now) &&
              Charged(s, now, n).limit == s.limit
    ensures Binding(s, now, n) ==> Charged(s, now, n).tokens < 1.0
    ensures s.limit > 0 ==> Charged(s, now, n).tokens >= s.tokens - n as real
  {
  }

  /** The charging pass: every limited bucket loses exactly `allowed` tokens. */
  method TakeAll(slots: seq<Bucket>, now: int, allowed: int)
    requires Distinct(slots) && Settled(slots, now) && allowed > 0 && AllAllow(slots, now, allowed)
    modifies slots`tokens, slots`last, slots`taken
    ensures Settled(slots, now)
    ensures forall i :: 0 <= i < |slots| ==>
              && slots[i].View() == Charged(old(slots[i].View()), now, allowed)
              && slots[i].taken == old(slots[i].taken) + Share(slots[i].limit, allowed)
    ensures forall i :: 0 <= i < |slots| && slots[i].limit > 0 ==>
              slots[i].tokens >= old(slots[i].tokens) - allowed as real
  {
    hide Fine, Charged, Share, Allows;
    for k := 0 to |slots|
      invariant forall i :: 0 <= i < |slots| ==> Fine(slots[i], now)
      invariant forall i :: 0 <= i < k ==> slots[i].View() == Charged(old(slots[i].View()), now, allowed)
      invariant forall i :: 0 <= i < k ==> slots[i].taken == old(slots[i].taken) + Share(slots[i].limit, allowed)
      invariant forall i :: 0 <= i < k && slots[i].limit > 0 ==>
                slots[i].tokens >= old(slots[i].tokens) - allowed as real
      invariant forall i :: k <= i < |slots| ==>
                slots[i].View() == old(slots[i].View()) && slots[i].taken == old(slots[i].taken)
    {
      TakeOne(slots[k], now, allowed);
    }
  }

  method TakeOne(b: Bucket, now: int, n: int)
    requires Fine(b, now) && n > 0 && Allows(b.View(), now, n)
    modifies b`tokens, b`last, b`taken
    ensures Fine(b, now) && b.View() == Charged(old(b.View()), now, n)
    ensures b.taken == old(b.taken) + Share(b.limit, n)
    ensures b.limit > 0 ==> b.tokens >= old(b.tokens) - n as real
  {
    TakeFacts(b.View(), now, n);
    hide Refill, Take, Charged, SettledAt, SlotOk, WithinRate, Permits, Allows;
    var taken := b.TakeLocked(now, n);
  }

  lemma WaitFacts(s: Slot, now: int)
    requires SettledAt(s, now)
    ensures var (r, w) := Wait(s, now);
            SettledAt(r, now) && w >= 0 && Ready(r, now + w) && (s.limit > 0 && Permits(s, now) == 0 ==> w > 0)
  {
    if s.limit > 0 {
      WaitReachesOneToken(s, now, now + Wait(s, now).1);
    }
  }

  lemma WaitGains(s: Slot, now: int)
    requires SettledAt(s, now)
    ensures Wait(s, now).0.tokens >= s.tokens
  {
    hide Accrued;
    RefillGains(s, now);
  }

  lemma StaysReady(s: Slot, now: int, t: int, later: int)
    requires SettledAt(s, now) && now <= t <= later && Ready(s, t)
    ensures Ready(s, later)
  {
    ReadyLater(s, t, later);
  }

  /** The waiting pass: long enough for every limited bucket to reach one whole token. */
  method WaitAll(slots: seq<Bucket>, now: int) returns (wait: int)
    requires Distinct(slots) && Settled(slots, now)
    modifies slots`tokens, slots`last
    ensures Settled(slots, now) && wait >= 0
    ensures forall i :: 0 <= i < |slots| ==> Ready(slots[i].View(), now + wait)
    ensures forall i :: 0 <= i < |slots| ==> slots[i].tokens >= old(slots[i].tokens)
    ensures wait == 0 || exists i :: 0 <= i < |slots| && wait == Wait(old(slots[i].View()), now).1
  {
    hide Refill, Wait, Ready, SettledAt, SlotOk, WithinRate, Permits;
    wait := 0;
    for k := 0 to |slots|
      invariant Settled(slots, now) && wait >= 0
      invariant forall i :: 0 <= i < k ==> Ready(slots[i].View(), now + wait)
      invariant forall i :: 0 <= i < |slots| ==> slots[i].tokens >= old(slots[i].tokens)
      invariant forall i :: k <= i < |slots| ==> slots[i].View() == old(slots[i].View())
      invariant wait == 0 || exists i :: 0 <= i < k && wait == Wait(old(slots[i].View()), now).1
    {
      WaitFacts(slots[k].View(), now);
      WaitGains(slots[k].View(), now);
      label before:
      var slotWait := slots[k].WaitLocked(now);
      assert forall i :: 0 <= i < |slots| && i != k ==> slots[i].View() == old@before(slots[i].View());
      var longest := if slotWait > wait then slotWait else wait;
      StaysReady(slots[k].View(), now, now + slotWait, now + longest);
      forall i | 0 <= i < k ensures Ready(slots[i].View(), now + longest) {
        StaysReady(slots[i].View(), now, now + wait, now + longest);
      }
      wait := longest;
    }
  }

  lemma SettledLater(slots: seq<Bucket>, now: int, later: int)
    requires Settled(slots, now) && now <= later
    ensures Settled(slots, later)
  {
  }

  lemma AllReadyLater(slots: seq<Bucket>, now: int, later: int)
    requires Settled(slots, now) && AllReady(slots, now) && now <= later
    ensures AllReady(slots, later)
  {
    hide Refill, Ready, SlotOk, WithinRate;
    forall i | 0 <= i < |slots| ensures Ready(slots[i].View(), later) {
      ReadyLater(slots[i].View(), now, later);
    }
  }

  lemma ReadyAfterSleep(slots: seq<Bucket>, now: int, wait: int, later: int)
    requires Settled(slots, now) && AllReady(slots, now + wait) && 0 <= wait && now + wait <= later
    ensures Settled(slots, later) && AllReady(slots, later)
  {
    hide Refill, Ready, SlotOk, WithinRate;
    SettledLater(slots, now, now + wait);
    AllReadyLater(slots, now + wait, later);
    SettledLater(slots, now, later);
  }

  lemma BindingIsEmptied(b: Bucket, now: int, n: int)
    requires Fine(b, now) && n > 0 && Allows(b.View(), now, n) && Binding(b.View(), now, n)
    ensures b.limit > 0 && Charged(b.View(), now, n).tokens < 1.0
  {
    TakeFacts(b.View(), now, n);
  }

  /** Charging what the preview found: all that was asked for, or so much that a bucket is emptied. */
  method TakePreviewed(slots: seq<Bucket>, now: int, maxBytes: int, allowed: int)
    requires Distinct(slots) && Settled(slots, now) && 0 < allowed <= maxBytes && AllAllow(slots, now, allowed)
    requires allowed == maxBytes || exists i :: 0 <= i < |slots| && Binding(slots[i].View(), now, allowed)
    modifies slots`tokens, slots`last, slots`taken
    ensures Settled(slots, now)
    ensures forall i :: 0 <= i < |slots| ==>
              slots[i].taken == old(slots[i].taken) + Share(slots[i].limit, allowed)
    ensures allowed == maxBytes || exists i :: 0 <= i < |slots| && slots[i].limit > 0 && slots[i].tokens < 1.0
    ensures forall i :: 0 <= i < |slots| && slots[i].limit > 0 ==>
              slots[i].tokens >= old(slots[i].tokens) - allowed as real
  {
    hide Refill, Ready, Fine, Allows, Permits, Charged, Share;
    ghost var binding := 0;
    if allowed < maxBytes {
      binding :| 0 <= binding < |slots| && Binding(slots[binding].View(), now, allowed);
      BindingIsEmptied(slots[binding], now, allowed);
    }
    TakeAll(slots, now, allowed);
    assert allowed < maxBytes ==> slots[binding].tokens == slots[binding].View().tokens < 1.0;
  }

  /** One turn of the loop of takeBandwidthAllowance: it succeeds when every bucket is ready, and
      otherwise says how long to sleep for every bucket to be ready. */
  method TryTake(slots: seq<Bucket>, now: int, maxBytes: int) returns (allowed: int, wait: int)
    requires Distinct(slots) && Settled(slots, now) && maxBytes > 0
    modifies slots`tokens, slots`last, slots`taken
    ensures Settled(slots, now) && 0 <= allowed <= maxBytes && wait >= 0
    ensures old(AllReady(slots, now)) ==> allowed > 0
    ensures allowed == 0 ==> AllReady(slots, now + wait)
    ensures forall i :: 0 <= i < |slots| ==>
              slots[i].taken == old(slots[i].taken) + Share(slots[i].limit, allowed)
    ensures allowed > 0 ==>
              allowed == maxBytes || exists i :: 0 <= i < |slots| && slots[i].limit > 0 && slots[i].tokens < 1.0
    ensures forall i :: 0 <= i < |slots| && slots[i].limit > 0 ==>
              slots[i].tokens >= old(slots[i].tokens) - allowed as real
    ensures forall i :: 0 <= i < |slots| && slots[i].limit > 0 ==> slots[i].Net() == old(slots[i].Net()) + allowed
  {
    hide Refill, Ready, Fine, Allows, Permits, Charged, Binding;
    allowed := PreviewAll(slots, now, maxBytes);
    wait := 0;
    if allowed > 0 {
      TakePreviewed(slots, now, maxBytes, allowed);
    } else {
      wait := WaitAll(slots, now);
    }
  }

  /** takeBandwidthAllowance for a lone caller: it returns after at most one sleep, having charged
      every limited bucket exactly the amount it returns, and that amount is the largest possible:
      the whole request, or so much that some bucket is left with less than one token. */
  method TakeAllowance(clock: Clock, slots: seq<Bucket>, maxBytes: int) returns (allowed: int)
    requires Distinct(slots) && Settled(slots, clock.now)
    modifies clock, slots`tokens, slots`last, slots`taken
    ensures Settled(slots, clock.now)
    ensures maxBytes <= 0 ==> allowed == 0
    ensures maxBytes > 0 ==> 0 < allowed <= maxBytes
    ensures forall i :: 0 <= i < |slots| ==>
              slots[i].taken == old(slots[i].taken) + Share(slots[i].limit, allowed)
    ensures maxBytes > 0 ==>
              allowed == maxBytes || exists i :: 0 <= i < |slots| && slots[i].limit > 0 && slots[i].tokens < 1.0
    ensures forall i :: 0 <= i < |slots| && slots[i].limit > 0 ==>
              slots[i].tokens >= old(slots[i].tokens) - allowed as real
    ensures forall i :: 0 <= i < |slots| && slots[i].limit > 0 ==> slots[i].Net() == old(slots[i].Net()) + allowed
  {
    hide Settled, AllReady, Share, Bucket.Net;
    ShareOfNothing();
    if maxBytes <= 0 {
      return 0;
    }
    if |slots| == 0 {
      return maxBytes;
    }
    ghost var slept := false;
    while true
      invariant Settled(slots, clock.now)
      invariant slept ==> AllReady(slots, clock.now)
      invariant forall i :: 0 <= i < |slots| ==> slots[i].taken == old(slots[i].taken)
      invariant forall i :: 0 <= i < |slots| && slots[i].limit > 0 ==>
                slots[i].tokens >= old(slots[i].tokens) && slots[i].Net() == old(slots[i].Net())
      decreases !slept
    {
      var n := TakeOrSleep(clock, slots, maxBytes);
      if n > 0 {
        return n;
      }
      slept := true;
    }
  }

  /** One turn of the loop with the sleep that follows a failure: after that the next turn succeeds. */
  method TakeOrSleep(clock: Clock, slots: seq<Bucket>, maxBytes: int) returns (n: int)
    requires Distinct(slots) && Settled(slots, clock.now) && maxBytes > 0
    modifies clock, slots`tokens, slots`last, slots`taken
    ensures Settled(slots, clock.now) && 0 <= n <= maxBytes
    ensures old(AllReady(slots, clock.now)) ==> n > 0
    ensures n == 0 ==> AllReady(slots, clock.now)
    ensures forall i :: 0 <= i < |slots| ==> slots[i].taken == old(slots[i].taken) + Share(slots[i].limit, n)
    ensures n > 0 ==>
              n == maxBytes || exists i :: 0 <= i < |slots| && slots[i].limit > 0 && slots[i].tokens < 1.0
    ensures forall i :: 0 <= i < |slots| && slots[i].limit > 0 ==> slots[i].tokens >= old(slots[i].tokens) - n as real
    ensures forall i :: 0 <= i < |slots| && slots[i].limit > 0 ==> slots[i].Net() == old(slots[i].Net()) + n
  {
    hide Settled, AllReady, Share, Bucket.Net;
    ghost var t := clock.now;
    ghost var ready := AllReady(slots, t);
    var now := clock.Now();
    SettledLater(slots, t, now);
    if ready {
      AllReadyLater(slots, t, now);
    }
    var slotWait;
    n, slotWait := TryTake(slots, now, maxBytes);
    if n > 0 {
      return;
    }
    var wait := if slotWait <= 0 then SECOND / 1000 else slotWait;
    clock.Sleep(wait);
    ReadyAfterSleep(slots, now, slotWait, clock.now);
  }

  lemma ShareOfNothing()
    ensures forall limit :: Share(limit, 0) == 0
  {
  }

  method RefundEach(slots: seq<Bucket>, now: int, bytes: int)
    requires Distinct(slots) && Settled(slots, now) && bytes > 0
    modifies slots`tokens, slots`last, slots`refunded
    ensures Settled(slots, now)
    ensures forall i :: 0 <= i < |slots| ==>
              slots[i].refunded == old(slots[i].refunded) + Share(slots[i].limit, bytes)
    ensures forall i :: 0 <= i < |slots| && slots[i].limit > 0 ==>
              slots[i].tokens >= old(slots[i].tokens) + bytes as real || slots[i].tokens == slots[i].capacity
  {
    hide Fine, Share;
    for k := 0 to |slots|
      invariant forall i :: 0 <= i < |slots| ==> Fine(slots[i], now)
      invariant forall i :: 0 <= i < k ==> slots[i].refunded == old(slots[i].refunded) + Share(slots[i].limit, bytes)
      invariant forall i :: k <= i < |slots| ==>
                slots[i].refunded == old(slots[i].refunded) && slots[i].tokens == old(slots[i].tokens)
      invariant forall i :: 0 <= i < k && slots[i].limit > 0 ==>
                slots[i].tokens >= old(slots[i].tokens) + bytes as real || slots[i].tokens == slots[i].capacity
    {
      RefundOne(slots[k], now, bytes);
    }
  }

  method RefundOne(b: Bucket, now: int, bytes: int)
    requires Fine(b, now) && bytes > 0
    modifies b`tokens, b`last, b`refunded
    ensures Fine(b, now) && b.refunded == old(b.refunded) + Share(b.limit, bytes)
    ensures b.limit > 0 ==> b.tokens >= old(b.tokens) + bytes as real || b.tokens == b.capacity
  {
    RefundFacts(b.View(), now, bytes);
    if b.limit > 0 {
      RefundGivesBack(b.View(), now, bytes);
    }
    hide Refund, SettledAt, SlotOk, WithinRate;
    b.RefundLocked(now, bytes);
  }

  /** refundBandwidthAllowance. */
  method RefundAll(clock: Clock, slots: seq<Bucket>, bytes: int)
    requires Distinct(slots) && Settled(slots, clock.now)
    modifies clock, slots`tokens, slots`last, slots`refunded
    ensures Settled(slots, clock.now)
    ensures forall i :: 0 <= i < |slots| ==>
              slots[i].refunded == old(slots[i].refunded) + if slots[i].limit > 0 && bytes > 0 then bytes else 0
    ensures forall i :: 0 <= i < |slots| && slots[i].limit > 0 && bytes >= 0 ==>
              slots[i].tokens >= old(slots[i].tokens) + bytes as real || slots[i].tokens == slots[i].capacity
    ensures forall i :: 0 <= i < |slots| && slots[i].limit > 0 && bytes >= 0 ==>
              slots[i].Net() == old(slots[i].Net()) - bytes
  {
    hide SettledAt, SlotOk, WithinRate;
    if bytes <= 0 || |slots| == 0 {
      return;
    }
    ghost var t := clock.now;
    var now := clock.Now();
    SettledLater(slots, t, now);
    RefundEach(slots, now, bytes);
  }

  lemma RefundFacts(s: Slot, now: int, bytes: int)
    requires SettledAt(s, now)
    ensures SettledAt(Refund(s, now, bytes), now)
  {
  }

  /** reserveFullPayloadBandwidth for a lone caller terminates having charged exactly the total. */
  method ReserveFull(clock: Clock, slots: seq<Bucket>, totalBytes: int)
    requires Distinct(slots) && Settled(slots, clock.now)
    modifies clock, slots`tokens, slots`last, slots`taken
    ensures Settled(slots, clock.now)
    ensures forall i :: 0 <= i < |slots| ==>
              slots[i].taken == old(slots[i].taken) + if slots[i].limit > 0 && totalBytes > 0 then totalBytes else 0
  {
    hide Settled;
    var remaining := totalBytes;
    while remaining > 0
      invariant Settled(slots, clock.now) && (totalBytes > 0 ==> remaining >= 0) &&
                (totalBytes <= 0 ==> remaining == totalBytes)
      invariant forall i :: 0 <= i < |slots| ==>
                  slots[i].taken == old(slots[i].taken)
                                    + if slots[i].limit > 0 && totalBytes > 0 then totalBytes - remaining else 0
    {
      var n := TakeAllowance(clock, slots, remaining);
      remaining := remaining - n;
    }
  }

  // ---------- copying a stream ----------

  datatype ReadResult = ReadResult(data: seq<byte>, err: ReadError)
  datatype ReadError = NoReadError | EndOfFile | ReadFailed
  datatype WriteResult = WriteResult(n: nat, failed: bool)
  datatype CopyError = CopyOk | CopyReadFailed | CopyWriteFailed | CopyShortWrite

  /** A reader that answers from a script, cutting each answer to the buffer it is given, and that
      reports the end of the file after the last one.  Every terminating reader is one of these. */
  class Reader {
    var script: seq<ReadResult>
    ghost var produced: seq<byte>
    ghost var last: ReadError   // the error reported last

    constructor (script: seq<ReadResult>)
      ensures this.script == script && produced == [] && last == NoReadError
    {
      this.script := script;
      produced, last := [], NoReadError;
    }

    method Read(size: nat) returns (data: seq<byte>, err: ReadError)
      modifies this
      ensures |data| <= size && produced == old(produced) + data && last == err
      ensures old(script) == [] ==> data == [] && err == EndOfFile && script == []
      ensures old(script) != [] ==>
                && script == old(script)[1..] && err == old(script)[0].err && data <= old(script)[0].data
                && (|old(script)[0].data| <= size ==> data == old(script)[0].data)
    {
      if script == [] {
        last := EndOfFile;
        return [], EndOfFile;
      }
      var next := script[0];
      data := if |next.data| <= size then next.data else next.data[..size];
      err := next.err;
      script := script[1..];
      produced, last := produced + data, err;
    }
  }

  /** A writer that accepts what its script says, which may be less than it is offered or nothing. */
  class Writer {
    var script: seq<WriteResult>
    var output: seq<byte>
    ghost var failed: bool   // whether the last write reported an error

    constructor (script: seq<WriteResult>)
      ensures this.script == script && output == [] && !failed
    {
      this.script := script;
      output, failed := [], false;
    }

    method Write(p: seq<byte>) returns (n: nat, error: bool)
      modifies this
      ensures n <= |p| && output == old(output) + p[..n] && failed == error
      ensures old(script) == [] ==> n == |p| && !error
      ensures old(script) != [] ==> script == old(script)[1..] && error == old(script)[0].failed
    {
      if script == [] {
        n, error := |p|, false;
      } else {
        n := if script[0].n < |p| then script[0].n else |p|;
        error := script[0].failed;
        script := script[1..];
      }
      output, failed := output + p[..n], error;
    }
  }

  method WriteFull(dst: Writer, payload: seq<byte>) returns (written: nat, err: CopyError)
    modifies dst
    ensures written <= |payload| && dst.output == old(dst.output) + payload[..written]
    ensures err == CopyOk ==> written == |payload|
    ensures err == CopyOk || err == CopyWriteFailed || (err == CopyShortWrite && written < |payload|)
    ensures err == CopyWriteFailed ==> dst.failed
    ensures err == CopyShortWrite ==> !dst.failed
    ensures payload == [] ==> err == CopyOk && dst.failed == old(dst.failed)
    ensures payload != [] ==> err == CopyOk ==> !dst.failed
  {
    written := 0;
    while written < |payload|
      invariant written <= |payload| && dst.output == old(dst.output) + payload[..written]
      invariant if written == 0 then dst.failed == old(dst.failed) else !dst.failed
    {
      var n, failed := dst.Write(payload[written..]);
      assert payload[..written] + payload[written..][..n] == payload[..written + n];
      written := written + n;
      if failed {
        return written, CopyWriteFailed;
      }
      if n == 0 {
        return written, CopyShortWrite;
      }
    }
    return written, CopyOk;
  }

  function Total(ns: seq<nat>): nat {
    if ns == [] then 0 else Total(ns[..|ns| - 1]) + ns[|ns| - 1]
  }

  lemma TotalSnoc(ns: seq<nat>, n: nat)
    ensures Total(ns + [n]) == Total(ns) + n
  {
    assert (ns + [n])[..|ns|] == ns;
  }

  lemma TokensInRange(slots: seq<Bucket>, now: int)
    requires Settled(slots, now)
    ensures forall i :: 0 <= i < |slots| && slots[i].limit > 0 ==> slots[i].tokens <= slots[i].capacity
  {
    hide WithinRate;
    forall i | 0 <= i < |slots| && slots[i].limit > 0 ensures slots[i].tokens <= slots[i].capacity {
      assert Fine(slots[i], now);
    }
  }

  const BUFFER: nat := 32 * 1024

  /** The reading half of a turn: what stays charged is what was read. */
  method FillBuffer(clock: Clock, src: Reader, slots: seq<Bucket>) returns (data: seq<byte>, err: ReadError)
    requires Distinct(slots) && Settled(slots, clock.now)
    modifies clock, src, slots`tokens, slots`last, slots`taken, slots`refunded
    ensures Settled(slots, clock.now)
    ensures src.produced == old(src.produced) + data
    ensures if old(src.script) == [] then err == EndOfFile else |src.script| < |old(src.script)|
    ensures src.last == err
    ensures forall i :: 0 <= i < |slots| && slots[i].limit > 0 ==> slots[i].Net() == old(slots[i].Net()) + |data|
    ensures forall i :: 0 <= i < |slots| && slots[i].limit > 0 ==>
              slots[i].tokens >= old(slots[i].tokens) - |data| as real
  {
    hide Settled, Bucket.Net, Distinct, Share;
    TokensInRange(slots, clock.now);
    var allowed := TakeAllowance(clock, slots, BUFFER);
    data, err := src.Read(allowed);
    assert (allowed - |data|) as real == allowed as real - |data| as real;
    GiveBack(clock, slots, allowed - |data|);
  }

  /** A refund of what was not used, if anything. */
  method GiveBack(clock: Clock, slots: seq<Bucket>, unused: int)
    requires Distinct(slots) && Settled(slots, clock.now) && unused >= 0
    modifies clock, slots`tokens, slots`last, slots`refunded
    ensures Settled(slots, clock.now)
    ensures forall i :: 0 <= i < |slots| && slots[i].limit > 0 ==> slots[i].Net() == old(slots[i].Net()) - unused
    ensures forall i :: 0 <= i < |slots| && slots[i].limit > 0 ==>
              slots[i].tokens >= old(slots[i].tokens) + unused as real || slots[i].tokens == slots[i].capacity
  {
    hide Settled, Bucket.Net, Distinct, Share;
    if unused > 0 {
      RefundAll(clock, slots, unused);
    }
  }

  /** The writing half of a turn: what was not written is given back. */
  method Deliver(clock: Clock, dst: Writer, data: seq<byte>, slots: seq<Bucket>) returns (written: nat, err: CopyError)
    requires Distinct(slots) && Settled(slots, clock.now)
    modifies clock, dst, slots`tokens, slots`last, slots`refunded
    ensures Settled(slots, clock.now)
    ensures written <= |data| && dst.output == old(dst.output) + data[..written]
    ensures err == CopyOk ==> written == |data|
    ensures forall i :: 0 <= i < |slots| && slots[i].limit > 0 ==>
              slots[i].Net() == old(slots[i].Net()) - (|data| - written)
    ensures forall i :: 0 <= i < |slots| && slots[i].limit > 0 ==>
              || slots[i].tokens >= old(slots[i].tokens) + (|data| - written) as real
              || slots[i].tokens == slots[i].capacity
    ensures err == CopyOk || err == CopyWriteFailed || (err == CopyShortWrite && written < |data|)
    ensures err == CopyWriteFailed ==> dst.failed
  {
    hide Settled, Bucket.Net, Distinct, Share;
    TokensInRange(slots, clock.now);
    written, err := WriteFull(dst, data);
    GiveBack(clock, slots, |data| - written);
  }

  /** One turn of the copy: read what was allowed, write it, give the rest back. */
  method CopyTurn(clock: Clock, dst: Writer, src: Reader, slots: seq<Bucket>)
    returns (data: seq<byte>, nw: nat, er: ReadError, ew: CopyError)
    requires Distinct(slots) && Settled(slots, clock.now)
    modifies clock, dst, src, slots`tokens, slots`last, slots`taken, slots`refunded
    ensures Settled(slots, clock.now)
    ensures src.produced == old(src.produced) + data
    ensures nw <= |data| && dst.output == old(dst.output) + data[..nw]
    ensures ew == CopyOk ==> nw == |data|
    ensures if old(src.script) == [] then er == EndOfFile else |src.script| < |old(src.script)|
    ensures forall i :: 0 <= i < |slots| && slots[i].limit > 0 ==> slots[i].Net() == old(slots[i].Net()) + nw
    ensures forall i :: 0 <= i < |slots| && slots[i].limit > 0 ==>
              slots[i].tokens >= old(slots[i].tokens) - nw as real
    ensures ew == CopyOk || ew == CopyWriteFailed || (ew == CopyShortWrite && nw < |data|)
    ensures src.last == er && (ew == CopyWriteFailed ==> dst.failed)
  {
    hide Settled, Bucket.Net, Distinct, Share;
    TokensInRange(slots, clock.now);
    data, er := FillBuffer(clock, src, slots);
    nw, ew := 0, CopyOk;
    if |data| > 0 {
      nw, ew := Deliver(clock, dst, data, slots);
    }
  }

  /** copyWithBandwidthObserved: whatever the reader and the writer do, the total returned is the sum
      of what the observer was told, it is the number of bytes written, those bytes are the first
      ones read, and it is exactly what every limited bucket was charged after refunds. */
  method CopyObserved(clock: Clock, dst: Writer, src: Reader, slots: seq<Bucket>)
    returns (total: nat, err: CopyError, observed: seq<nat>, ghost read: seq<byte>)
    requires Distinct(slots) && Settled(slots, clock.now)
    modifies clock, dst, src, slots`tokens, slots`last, slots`taken, slots`refunded
    ensures Settled(slots, clock.now)
    ensures total == Total(observed)
    ensures src.produced == old(src.produced) + read && total <= |read|
    ensures dst.output == old(dst.output) + read[..total]
    ensures err == CopyOk ==> total == |read| && src.last == EndOfFile
    ensures err == CopyReadFailed ==> total == |read| && src.last == ReadFailed
    ensures err == CopyWriteFailed ==> dst.failed
    ensures err == CopyShortWrite ==> total < |read|
    ensures forall i :: 0 <= i < |slots| && slots[i].limit > 0 ==> slots[i].Net() == old(slots[i].Net()) + total
    ensures forall i :: 0 <= i < |slots| && slots[i].limit > 0 ==>
              slots[i].tokens >= old(slots[i].tokens) - total as real
  {
    hide Settled, Bucket.Net, Distinct;
    total, observed, read, err := 0, [], [], CopyOk;
    ghost var start, sent := src.produced, dst.output;
    while true
      invariant Settled(slots, clock.now)
      invariant total == Total(observed) == |read| && err == CopyOk
      invariant src.produced == start + read && dst.output == sent + read
      invariant forall i :: 0 <= i < |slots| && slots[i].limit > 0 ==> slots[i].Net() == old(slots[i].Net()) + total
      invariant forall i :: 0 <= i < |slots| && slots[i].limit > 0 ==>
              slots[i].tokens >= old(slots[i].tokens) - total as real
      decreases |src.script|
    {
      var data, nw, er, ew := CopyTurn(clock, dst, src, slots);
      hide Total;
      TotalSnoc(observed, nw);
      Extend(start, read, data, |data|);
      Extend(sent, read, data, nw);
      read := read + data;
      total := total + nw;
      if nw > 0 {
        observed := observed + [nw];
      }
      if ew != CopyOk {
        err := ew;
        return;
      }
      if nw != |data| {
        err := CopyShortWrite;
        return;
      }
      if er != NoReadError {
        err := if er == EndOfFile then CopyOk else CopyReadFailed;
        return;
      }
    }
  }

  lemma Extend(sent: seq<byte>, read: seq<byte>, data: seq<byte>, n: nat)
    requires n <= |data|
    ensures sent + read + data[..n] == sent + (read + data)[..|read| + n]
    ensures n == |data| ==> sent + read + data == sent + (read + data) && (read + data)[..|read| + n] == read + data
  {
    assert (read + data)[..|read| + n] == read + data[..n];
  }

  /** At every point between calls, what a limited bucket has let through since its limit was set is
      at most one capacity plus the limit times the time elapsed. */
  lemma NetWithinRate(slots: seq<Bucket>, now: int, i: nat)
    requires Settled(slots, now) && i < |slots| && slots[i].limit > 0
    ensures slots[i].Net() as real <= slots[i].capacity + Accrued(slots[i].limit, now - slots[i].since)
  {
    var b := slots[i];
    assert b.Valid() && SettledAt(b.View(), now);
    AccruedMonotone(b.limit, b.last.ns - b.since, now - b.since);
  }
}
