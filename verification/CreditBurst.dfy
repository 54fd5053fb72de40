/** Stretches of a run of the shared-credit protocol: how much credit is handed out and how much is spent
    between any two points of it, and exactly when the second can exceed one burst plus the rate. */
module CreditBurst {
  import opened FairCredit
  import opened Credit
  import opened CreditProtocol

  /** When a stretch of a run begins on the owner's clock: at its first tick.  A stretch without a tick
      takes no time. */
  ghost function Began(s: Sys, steps: seq<Step>): real {
    if steps == [] then s.pacer.last
    else if steps[0].Tick? then steps[0].now
    else Began(s, steps[1..])
  }

  // ---------- credit handed out ----------

  /** A tick refills at most to one burst and spends from that. */
  lemma {:induction false} TickWithinBurst(s: Sys, now: real)
    requires Inv(s) && Enabled(s, Tick(now))
    ensures var m := Exec(s, Tick(now));
            m.pacer.last == now && (m.used - s.used) as real + m.pacer.tokens <= Burst(s.bps)
  {
    hide CallsSent, DemandsOrdered, GrantsOrdered, AtHighestDemand, AtHighestGrant, DesireAccounted;
    hide Divide, Allocate, Earned, Burst;
    RefillOk(s.pacer, s.bps, now);
    hide Refill;
  }

  /** The rate over any stretch of a run, for credit handed out: no more than one burst plus the rate times
      the time between the first and the last tick of the stretch. */
  lemma {:induction false} IssuedWithinBurstPlusRate(s: Sys, steps: seq<Step>)
    requires Inv(s) && Legal(s, steps)
    ensures var t := Run(s, steps);
            && (t.owner.remoteGranted + t.localPaid) - (s.owner.remoteGranted + s.localPaid) <= t.used - s.used
            && (t.used - s.used) as real <= Burst(s.bps) + Earned(s.bps, t.pacer.last - Began(s, steps))
    decreases |steps|
  {
    hide Inv, Enabled, Exec, Earned, Burst;
    RunSpends(s, steps);
    if steps == [] {
      InvTotals(s);
      NoTime(s.bps);
      BurstPositive(s.bps);
    } else {
      var m, rest := Exec(s, steps[0]), steps[1..];
      ExecKeepsInv(s, steps[0]);
      EarnedByStep(s, steps[0]);
      var t := Run(s, steps);
      assert t == Run(m, rest);
      hide Run;
      if steps[0].Tick? {
        TickWithinBurst(s, steps[0].now);
        RunSpends(m, rest);
        EarnedOverRun(m, rest);
        InvTotals(t);
      } else {
        StepSpends(s, steps[0]);
        PacerKept(s, steps[0]);
        BeganKept(s, m, rest);
        IssuedWithinBurstPlusRate(m, rest);
      }
    }
  }

  lemma NoTime(bps: nat)
    ensures Earned(bps, 0.0) == 0.0
  {
  }

  lemma BurstPositive(bps: nat)
    ensures Burst(bps) >= 1.0
  {
  }

  lemma PacerKept(s: Sys, step: Step)
    requires Inv(s) && Enabled(s, step) && !step.Tick?
    ensures Exec(s, step).pacer == s.pacer
  {
    hide Inv;
  }

  lemma {:induction false} BeganKept(s: Sys, m: Sys, steps: seq<Step>)
    requires s.pacer == m.pacer
    ensures Began(s, steps) == Began(m, steps)
  {
    if steps != [] {
      BeganKept(s, m, steps[1..]);
    }
  }

  /** The same in plain numbers: a tenth of a second's rate, but at least one byte, and the rate. */
  lemma {:induction false} IssuedWithinTenthPlusRate(s: Sys, steps: seq<Step>)
    requires Inv(s) && Legal(s, steps)
    ensures var t := Run(s, steps);
            (t.used - s.used) as real <=
              (if s.bps < 10 then 1.0 else s.bps as real / 10.0) + s.bps as real * (t.pacer.last - Began(s, steps))
  {
    hide Inv, Legal, Run, Began;
    IssuedWithinBurstPlusRate(s, steps);
  }

  /** A tick a tenth of a second or more after the last one finds a full bucket and hands out as much of it
      as the two sides ask, each up to 256 KiB. */
  lemma {:induction false} IdleTickPaysBurst(s: Sys, now: real)
    requires Inv(s) && s.flight.Idle? && s.bps >= 10 && s.pacer.last + 0.1 <= now
    ensures var m := Exec(s, Tick(now));
            var remoteOut := s.owner.remoteDesired - s.owner.remoteGranted;
            m.used - s.used ==
              Least((s.bps as real / 10.0).Floor, Least(remoteOut, 262_144) + Least(Sum(s.owner.local), 262_144))
  {
    hide CallsSent, DemandsOrdered, GrantsOrdered, AtHighestDemand, AtHighestGrant, DesireAccounted;
    hide Divide, Allocate, Sum;
    FullAfterTenth(s.pacer, s.bps, now);
    hide Refill, Burst, Earned;
    AllocateIsExact(s.owner, Block(s.pacer, s.bps, now));
  }

  lemma FullAfterTenth(p: Pacer, bps: nat, now: real)
    requires PacerOk(p, bps) && bps >= 10 && p.last + 0.1 <= now
    ensures Block(p, bps, now) == (bps as real / 10.0).Floor
  {
    var dt, rate := now - p.last, bps as real;
    NotNegative(rate, dt - 0.1);
    assert rate * dt == rate * (dt - 0.1) + rate * 0.1;
    assert Earned(bps, dt) >= Burst(bps);
  }

  lemma NotNegative(x: real, y: real)
    requires x >= 0.0 && y >= 0.0
    ensures x * y >= 0.0
  {
  }

  function Least(a: int, b: int): int {
    if a < b then a else b
  }

  // ---------- bytes spent ----------

  function Spent(s: Sys, t: Sys): int {
    (t.remote.consumed + t.localPaid) - (s.remote.consumed + s.localPaid)
  }

  /** Credit the owner has granted and the remote end has not spent. */
  function Unspent(s: Sys): int {
    s.owner.remoteGranted - s.remote.consumed
  }

  /** The rate over a stretch of a run, for bytes spent: what was unspent at its beginning comes on top. */
  lemma {:induction false} SpentWithinUnspentPlusRate(s: Sys, steps: seq<Step>)
    requires Inv(s) && Legal(s, steps)
    ensures var t := Run(s, steps);
            && Spent(s, t) as real <= Unspent(s) as real + s.pacer.tokens + Earned(s.bps, t.pacer.last - s.pacer.last)
            && Spent(s, t) as real <= Unspent(s) as real + Burst(s.bps) + Earned(s.bps, t.pacer.last - Began(s, steps))
  {
    hide Inv, Legal, Run, Earned, Burst;
    RunSpends(s, steps);
    EarnedOverRun(s, steps);
    IssuedWithinBurstPlusRate(s, steps);
    InvTotals(Run(s, steps));
  }

  // ---------- spending what was granted ----------

  /** A send that is under way succeeds; nothing else changes. */
  lemma {:induction false} Settle(s: Sys) returns (steps: seq<Step>)
    requires Inv(s)
    ensures Legal(s, steps) && TickFree(steps)
    ensures var t := Run(s, steps);
            && t.flight.Idle? && t.bps == s.bps && t.remote == s.remote && t.owner == s.owner && t.pacer == s.pacer
            && t.localPaid == s.localPaid && t.calls == s.calls
  {
    hide Inv;
    NoMore(s);
    if s.flight.Sending? {
      ExecKeepsInv(s, SendGrant(true));
      NoMore(Exec(s, SendGrant(true)));
      RunCons(s, SendGrant(true), []);
      steps := [SendGrant(true)] + [];
    } else {
      steps := [];
    }
  }

  /** Everything the owner has granted can reach the account without another tick. */
  lemma {:induction false} CatchUp(s: Sys) returns (steps: seq<Step>)
    requires Inv(s) && s.owner.remoteGranted > 0
    ensures Legal(s, steps) && TickFree(steps)
    ensures var t := Run(s, steps);
            && t.bps == s.bps && t.calls == s.calls
            && t.remote.granted == t.owner.remoteGranted == s.owner.remoteGranted
            && t.remote == s.remote.(granted := t.remote.granted, grantSequence := t.remote.grantSequence)
  {
    hide Inv, Legal, Run;
    var first := Settle(s);
    var m := Run(s, first);
    DeliverLast(m);
    RunConcat(s, first, [DeliverGrant(m.lastSent)]);
    steps := first + [DeliverGrant(m.lastSent)];
  }

  lemma {:induction false} DeliverLast(s: Sys)
    requires Inv(s) && s.flight.Idle? && s.owner.remoteGranted > 0
    ensures Legal(s, [DeliverGrant(s.lastSent)])
    ensures var t := Run(s, [DeliverGrant(s.lastSent)]);
            && t.bps == s.bps && t.calls == s.calls
            && t.remote.granted == t.owner.remoteGranted == s.owner.remoteGranted
            && t.remote == s.remote.(granted := t.remote.granted, grantSequence := t.remote.grantSequence)
  {
    hide CallsSent, DemandsOrdered, AtHighestDemand, PaidFor, DesireAccounted;
    var g := s.lastSent;
    DeliverGrantKeepsInv(s, g);
    var t := Exec(s, DeliverGrant(g));
    RunCons(s, DeliverGrant(g), []);
    assert [DeliverGrant(g)] + [] == [DeliverGrant(g)];
  }

  /** Credit that has arrived can be spent by a fresh reservation at once. */
  lemma {:induction false} SpendNow(s: Sys, bytes: nat) returns (steps: seq<Step>)
    requires Inv(s) && !s.remote.closed && 0 < bytes <= MAX_INT64
    requires s.remote.consumed + bytes <= s.remote.granted && s.remote.desired + bytes <= MAX_UINT64
    ensures Legal(s, steps) && TickFree(steps)
    ensures Run(s, steps).remote.consumed == s.remote.consumed + bytes
  {
    hide Inv, RemoteOk, OwnerOk;
    var k := |s.calls|;
    ExecKeepsInv(s, Begin(bytes));
    var s1 := Exec(s, Begin(bytes));
    ExecKeepsInv(s1, SendDemand(k, true));
    var s2 := Exec(s1, SendDemand(k, true));
    ExecKeepsInv(s2, Finish(k));
    RunCons(s2, Finish(k), []);
    RunCons(s1, SendDemand(k, true), [Finish(k)] + []);
    RunCons(s, Begin(bytes), [SendDemand(k, true)] + ([Finish(k)] + []));
    steps := [Begin(bytes)] + ([SendDemand(k, true)] + ([Finish(k)] + []));
  }

  /** Without a single tick the remote end can spend more than a burst exactly when the owner has granted
      more than a burst that is not spent yet. */
  lemma {:induction false} OverspendIffUnspentExceedsBurst(s: Sys)
    requires Inv(s) && !s.remote.closed && s.remote.desired + Burst(s.bps).Floor + 1 <= MAX_UINT64
    ensures (exists steps :: Legal(s, steps) && TickFree(steps)
                             && (Run(s, steps).remote.consumed - s.remote.consumed) as real > Burst(s.bps))
            <==> Unspent(s) as real > Burst(s.bps)
  {
    hide Inv, Legal, Run;
    var room := Burst(s.bps).Floor + 1;
    if Unspent(s) as real > Burst(s.bps) {
      InvTotals(s);
      BurstFits(s);
      var first := CatchUp(s);
      var m := Run(s, first);
      var rest := SpendNow(m, room);
      RunConcat(s, first, rest);
      assert Legal(s, first + rest) && TickFree(first + rest);
    }
    forall steps | Legal(s, steps) && TickFree(steps)
      ensures (Run(s, steps).remote.consumed - s.remote.consumed) as real > Burst(s.bps) ==>
                Unspent(s) as real > Burst(s.bps)
    {
      RunSpends(s, steps);
      InvTotals(Run(s, steps));
    }
  }

  /** A tick at ten bytes a second, a tenth of a second after the bucket was empty, grants one byte. */
  lemma {:induction false} OneByteTick(s: Sys)
    requires Inv(s) && s.bps == 10 && s.pacer.tokens == 0.0 && s.flight.Idle? && s.owner.local == []
    requires s.owner.remoteGranted < s.owner.remoteDesired
    ensures Enabled(s, Tick(s.pacer.last + 0.1))
    ensures var t := Exec(s, Tick(s.pacer.last + 0.1));
            && Inv(t) && t.bps == 10 && t.pacer == Pacer(0.0, s.pacer.last + 0.1) && t.flight.Sending?
            && t.remote == s.remote
            && t.owner == s.owner.(remoteGranted := s.owner.remoteGranted + 1,
                                   grantSequence := s.owner.grantSequence + 1)
  {
    hide CallsSent, DemandsOrdered, GrantsOrdered, AtHighestDemand, AtHighestGrant, DesireAccounted;
    var now := s.pacer.last + 0.1;
    assert Enabled(s, Tick(now));
    TickKeepsInv(s, now);
    assert Earned(10, now - s.pacer.last) == 1.0;
    assert Refill(s.pacer, 10, now) == Pacer(1.0, now) && Block(s.pacer, 10, now) == 1;
    assert Divide(s.owner, 1) == Round(1, 0, false);
  }

  /** The condition is met in practice: at ten bytes a second, where a burst is one byte, two ticks
      pile up two bytes for a reservation of two bytes that then takes both at once. */
  lemma {:induction false} UnspentCanExceedBurst() returns (s: Sys, steps: seq<Step>)
    ensures s == Init(10, 0.0) && Legal(s, steps)
    ensures var t := Run(s, steps);
            !t.remote.closed && t.remote.desired == 2 && Burst(t.bps) == 1.0 && Unspent(t) as real > Burst(t.bps)
  {
    hide Inv, Legal, Run, Divide, Allocate, Refill, Block;
    s := Init(10, 0.0);
    var first := DemandTwo(s);
    var m := Run(s, first);
    OneByteTick(m);
    var m1 := Exec(m, Tick(0.1));
    ExecKeepsInv(m1, SendGrant(true));
    var m2 := Exec(m1, SendGrant(true));
    OneByteTick(m2);
    NoMore(Exec(m2, Tick(0.2)));
    RunCons(m2, Tick(0.2), []);
    RunCons(m1, SendGrant(true), [Tick(0.2)] + []);
    RunCons(m, Tick(0.1), [SendGrant(true)] + ([Tick(0.2)] + []));
    var rest := [Tick(0.1)] + ([SendGrant(true)] + ([Tick(0.2)] + []));
    RunConcat(s, first, rest);
    steps := first + rest;
  }

  lemma {:induction false} DemandTwo(s: Sys) returns (steps: seq<Step>)
    requires s == Init(10, 0.0)
    ensures Legal(s, steps)
    ensures var t := Run(s, steps);
            && t.bps == 10 && t.pacer == Pacer(0.0, 0.0) && t.flight.Idle?
            && t.remote == Remote(2, 0, 0, 1, 0, false) && t.owner == Owner(2, 0, 1, 0, [], false, false)
  {
    hide Inv, RemoteOk, OwnerOk;
    var d := Demand(1, 2);
    ExecKeepsInv(s, Begin(2));
    var s1 := Exec(s, Begin(2));
    ExecKeepsInv(s1, SendDemand(0, true));
    var s2 := Exec(s1, SendDemand(0, true));
    ExecKeepsInv(s2, DeliverDemand(d));
    NoMore(Exec(s2, DeliverDemand(d)));
    RunCons(s2, DeliverDemand(d), []);
    RunCons(s1, SendDemand(0, true), [DeliverDemand(d)] + []);
    RunCons(s, Begin(2), [SendDemand(0, true)] + ([DeliverDemand(d)] + []));
    steps := [Begin(2)] + ([SendDemand(0, true)] + ([DeliverDemand(d)] + []));
  }

  lemma BurstFits(s: Sys)
    requires Inv(s)
    ensures 1 <= Burst(s.bps).Floor && Burst(s.bps).Floor + 2 <= MAX_INT64
  {
    hide CallsSent, DemandsOrdered, GrantsOrdered, AtHighestDemand, AtHighestGrant, Outstanding;
  }

  // ---------- spending everything the bucket and the grants allow ----------

  function Issued(s: Sys): int {
    s.owner.remoteGranted + s.localPaid
  }

  /** What both sides have asked of the owner and not been granted. */
  function Owed(s: Sys): int {
    s.owner.remoteDesired - s.owner.remoteGranted + Sum(s.owner.local)
  }

  /** From s to t the owner paid `paid` bytes of credit and nothing was spent or sent in vain. */
  ghost predicate Paid(s: Sys, t: Sys, paid: int) {
    && t.bps == s.bps && t.remote == s.remote && t.calls == s.calls && t.flight.Idle?
    && t.owner.remoteDesired == s.owner.remoteDesired && t.owner.closed == s.owner.closed
    && Issued(t) == Issued(s) + paid && s.localPaid <= t.localPaid
    && Owed(t) == Owed(s) - paid
  }

  lemma PaidTwice(s: Sys, m: Sys, t: Sys, a: int, b: int)
    requires Paid(s, m, a) && Paid(m, t, b)
    ensures Paid(s, t, a + b)
  {
    hide Sum;
  }

  lemma TickAllowed(s: Sys, now: real)
    requires s.flight.Idle? && s.pacer.last <= now
    ensures Enabled(s, Tick(now))
  {
  }

  /** A tick without the send that follows it. */
  lemma {:induction false} TickPays(s: Sys, now: real)
    requires Inv(s) && s.flight.Idle? && s.pacer.last <= now && Owed(s) >= 1
    ensures var m, q := Exec(s, Tick(now)), Refill(s.pacer, s.bps, now);
            var paid := m.used - s.used;
            && 0 <= paid <= Block(s.pacer, s.bps, now) && (Block(s.pacer, s.bps, now) >= 1 ==> paid >= 1)
            && m.pacer == Pacer(q.tokens - paid as real, now)
            && m.bps == s.bps && m.remote == s.remote && m.calls == s.calls
            && m.owner.remoteDesired == s.owner.remoteDesired && m.owner.closed == s.owner.closed
            && Issued(m) == Issued(s) + paid && s.localPaid <= m.localPaid
            && Owed(m) == Owed(s) - paid
  {
    hide CallsSent, DemandsOrdered, GrantsOrdered, AtHighestDemand, AtHighestGrant, DesireAccounted, Divide, Allocate;
    var available := Block(s.pacer, s.bps, now);
    AllocateIsExact(s.owner, available);
    AllocateFrame(s.owner, available);
    hide Sum, Refill, Block, OwnerOk;
  }

  /** A tick and the send that follows it, if any. */
  lemma {:induction false} OneTick(s: Sys, now: real) returns (steps: seq<Step>, paid: nat)
    requires Inv(s) && s.flight.Idle? && s.pacer.last <= now && Owed(s) >= 1
    ensures Legal(s, steps) && steps != [] && steps[0] == Tick(now)
    ensures paid <= Block(s.pacer, s.bps, now) && (Block(s.pacer, s.bps, now) >= 1 ==> paid >= 1)
    ensures var t := Run(s, steps);
            Paid(s, t, paid) && t.pacer == Pacer(Refill(s.pacer, s.bps, now).tokens - paid as real, now)
  {
    hide Inv, Sum, Refill, Block, Legal, Run, Exec, Enabled, PacerOk;
    PacerInRange(s);
    TickAllowed(s, now);
    TickPays(s, now);
    ExecKeepsInv(s, Tick(now));
    var m := Exec(s, Tick(now));
    paid := m.used - s.used;
    var rest := Settle(m);
    RunCons(s, Tick(now), rest);
    steps := [Tick(now)] + rest;
  }

  lemma RefillAtOnce(p: Pacer, bps: nat)
    requires PacerOk(p, bps)
    ensures Refill(p, bps, p.last) == p && Block(p, bps, p.last) == p.tokens.Floor
  {
  }

  lemma PacerInRange(s: Sys)
    requires Inv(s)
    ensures PacerOk(s.pacer, s.bps)
  {
  }

  /** Ticks with the same stamp hand out all whole tokens. */
  lemma {:induction false} DrainWhole(s: Sys) returns (steps: seq<Step>)
    requires Inv(s) && s.flight.Idle? && Owed(s) > s.pacer.tokens.Floor
    ensures Legal(s, steps)
    ensures var t, n := Run(s, steps), s.pacer.tokens.Floor;
            Paid(s, t, n) && t.pacer == Pacer(s.pacer.tokens - n as real, s.pacer.last)
    decreases s.pacer.tokens.Floor
  {
    hide Inv, Sum, Refill, Block, Legal, Run;
    PacerInRange(s);
    RefillAtOnce(s.pacer, s.bps);
    var n := s.pacer.tokens.Floor;
    if n == 0 {
      steps := [];
      NoMore(s);
    } else {
      var first, paid := OneTick(s, s.pacer.last);
      var m := Run(s, first);
      assert m.pacer.tokens.Floor == n - paid;
      var rest := DrainWhole(m);
      RunConcat(s, first, rest);
      PaidTwice(s, m, Run(m, rest), paid, n - paid);
      steps := first + rest;
    }
  }

  lemma {:induction false} PacerKeptOverRun(s: Sys, steps: seq<Step>)
    requires Inv(s) && Legal(s, steps) && TickFree(steps)
    ensures Run(s, steps).pacer == s.pacer && Run(s, steps).localPaid == s.localPaid
    decreases |steps|
  {
    hide Inv, Enabled, Exec;
    if steps != [] {
      ExecKeepsInv(s, steps[0]);
      PacerKept(s, steps[0]);
      StepSpends(s, steps[0]);
      PacerKeptOverRun(Exec(s, steps[0]), steps[1..]);
    }
  }

  /** The last n calls wait for one byte each. */
  ghost predicate UnitsWait(s: Sys, n: nat) {
    n <= |s.calls| && forall i :: |s.calls| - n <= i < |s.calls| ==> s.calls[i] == Reservation(1, Waiting)
  }

  /** Between s and t only demands were made: nothing was granted, paid or spent. */
  ghost predicate OnlyAsked(s: Sys, t: Sys, n: nat) {
    && t.bps == s.bps && t.pacer == s.pacer && t.localPaid == s.localPaid && t.flight == s.flight
    && t.remote == s.remote.(desired := s.remote.desired + n, sequence := t.remote.sequence)
    && t.owner.remoteGranted == s.owner.remoteGranted && t.owner.local == s.owner.local
    && t.owner.closed == s.owner.closed
  }

  /** The newest demand, sent but perhaps not delivered. */
  ghost predicate NewestSent(s: Sys) {
    Demand(s.remote.sequence, s.remote.desired) in s.sentDemands
  }

  /** One reservation of one byte is raised and its demand sent. */
  lemma {:induction false} ReserveUnit(s: Sys) returns (steps: seq<Step>)
    requires Inv(s) && !s.remote.closed && s.remote.desired < MAX_UINT64
    ensures Legal(s, steps) && TickFree(steps)
    ensures var t := Run(s, steps);
            OnlyAsked(s, t, 1) && t.owner == s.owner && t.calls == s.calls + [Reservation(1, Waiting)] && NewestSent(t)
  {
    hide Inv, RemoteOk, OwnerOk, Legal, Run;
    var k := |s.calls|;
    CallsAndDemands(s);
    ExecKeepsInv(s, Begin(1));
    var s1 := Exec(s, Begin(1));
    ExecKeepsInv(s1, SendDemand(k, true));
    var s2 := Exec(s1, SendDemand(k, true));
    NoMore(s2);
    RunCons(s1, SendDemand(k, true), []);
    RunCons(s, Begin(1), [SendDemand(k, true)] + []);
    steps := [Begin(1)] + ([SendDemand(k, true)] + []);
  }

  lemma CallsAndDemands(s: Sys)
    requires Inv(s)
    ensures |s.calls| == |s.demands|
  {
  }

  lemma {:induction false} ReserveUnits(s: Sys, n: nat) returns (steps: seq<Step>)
    requires Inv(s) && !s.remote.closed && s.remote.desired + n <= MAX_UINT64
    ensures Legal(s, steps) && TickFree(steps)
    ensures var t := Run(s, steps);
            OnlyAsked(s, t, n) && t.owner == s.owner && UnitsWait(t, n) && (n > 0 ==> NewestSent(t))
  {
    hide Inv, Legal, Run, NewestSent;
    if n == 0 {
      NoMore(s);
      steps := [];
    } else {
      var first := ReserveUnits(s, n - 1);
      var m := Run(s, first);
      var rest := ReserveUnit(m);
      RunConcat(s, first, rest);
      steps := first + rest;
    }
  }

  /** Delivering the newest demand tells the owner all that is wanted. */
  lemma {:induction false} DeliverNewest(s: Sys)
    requires Inv(s) && NewestSent(s)
    ensures var d := Demand(s.remote.sequence, s.remote.desired);
            var t := Exec(s, DeliverDemand(d));
            && Enabled(s, DeliverDemand(d)) && OnlyAsked(s, t, 0) && t.calls == s.calls
            && t.owner.remoteDesired == s.remote.desired
  {
    hide CallsSent, AtHighestGrant, DesireAccounted, GrantsOrdered, PaidFor, RemoteOk, OwnerOk;
    var d := Demand(s.remote.sequence, s.remote.desired);
    SentDemandIsAccepted(s.remote.sequence, s.remote.desired, s.demands, s.sentDemands, s.deliveredDemands, s.owner, d);
    if d.sequence <= s.owner.demandSequence {
      StandsAtNewest(s.remote.sequence, s.remote.desired, s.demands, s.sentDemands, s.deliveredDemands, s.owner, d);
    }
  }

  lemma StandsAtNewest(sequence: nat, desired: nat, demands: seq<Demand>, sent: set<Demand>, delivered: set<Demand>,
                       o: Owner, d: Demand)
    requires DemandsOrdered(sequence, desired, demands, sent, delivered) && d in sent && d.sequence == sequence
    requires AtHighestDemand(o.demandSequence, o.remoteDesired, delivered) && sequence <= o.demandSequence
    ensures o.remoteDesired == d.total
  {
    var top := Demand(o.demandSequence, o.remoteDesired);
    assert top in sent;
  }

  /** n reservations of one byte each wait, the owner knows of them, and no send is under way. */
  lemma {:induction false} Ask(s: Sys, n: nat) returns (steps: seq<Step>)
    requires Inv(s) && !s.remote.closed && n >= 1 && s.remote.desired + n <= MAX_UINT64
    ensures Legal(s, steps) && TickFree(steps)
    ensures var t := Run(s, steps);
            && OnlyAsked(s.(flight := t.flight), t, n) && t.flight.Idle? && UnitsWait(t, n)
            && t.owner.remoteDesired == t.remote.desired && Owed(t) >= n
  {
    hide Inv, Legal, Run, NewestSent, UnitsWait, Enabled, Exec;
    var a := Settle(s);
    var s1 := Run(s, a);
    var b := ReserveUnits(s1, n);
    var s2 := Run(s1, b);
    DeliverNewest(s2);
    var step := DeliverDemand(Demand(s2.remote.sequence, s2.remote.desired));
    ExecKeepsInv(s2, step);
    var s3 := Exec(s2, step);
    NoMore(s3);
    RunCons(s2, step, []);
    RunConcat(s1, b, [step] + []);
    RunConcat(s, a, b + ([step] + []));
    UnitsKept(s2, s3, n);
    InvTotals(s1);
    steps := a + (b + ([step] + []));
  }

  lemma UnitsKept(s: Sys, t: Sys, n: nat)
    requires UnitsWait(s, n) && t.calls == s.calls
    ensures UnitsWait(t, n)
  {
  }

  /** Of n waiting one-byte calls, as many finish as credit has arrived for, up to r. */
  lemma {:induction false} FinishUnits(s: Sys, n: nat, r: nat) returns (steps: seq<Step>)
    requires Inv(s) && !s.remote.closed && UnitsWait(s, n) && r <= n && s.remote.consumed + r <= s.remote.granted
    ensures Legal(s, steps) && TickFree(steps)
    ensures Run(s, steps).remote.consumed == s.remote.consumed + r
    decreases r
  {
    hide Inv, Legal, Run;
    if r == 0 {
      NoMore(s);
      steps := [];
    } else {
      var step := Finish(|s.calls| - n);
      ExecKeepsInv(s, step);
      var m := Exec(s, step);
      var rest := FinishUnits(m, n - 1, r - 1);
      RunCons(s, step, rest);
      steps := [step] + rest;
    }
  }

  lemma {:induction false} BeganAtFirst(s: Sys, first: seq<Step>, rest: seq<Step>)
    requires TickFree(first) && rest != [] && rest[0].Tick?
    ensures Began(s, first + rest) == rest[0].now
  {
    if first == [] {
      assert first + rest == rest;
    } else {
      assert (first + rest)[1..] == first[1..] + rest;
      BeganAtFirst(s, first[1..], rest);
    }
  }

  /** The moment at which a fraction of a token has grown to a whole one. */
  function WholeAt(p: Pacer, bps: nat): real
    requires bps > 0
  {
    p.last + (1.0 - p.tokens) / bps as real
  }

  lemma WholeToken(p: Pacer, bps: nat)
    requires bps > 0 && 0.0 <= p.tokens < 1.0 && PacerOk(p, bps)
    ensures p.last <= WholeAt(p, bps) && Earned(bps, WholeAt(p, bps) - p.last) == 1.0 - p.tokens
    ensures Refill(p, bps, WholeAt(p, bps)).tokens == 1.0 && Block(p, bps, WholeAt(p, bps)) == 1
  {
    hide Burst;
    BurstPositive(bps);
    var d := (1.0 - p.tokens) / bps as real;
    DivideAndMultiply(1.0 - p.tokens, bps);
    assert WholeAt(p, bps) - p.last == d;
  }

  /** All whole tokens there are, and then the next one as soon as there is one. */
  lemma {:induction false} DrainAndOneMore(s: Sys) returns (steps: seq<Step>)
    requires Inv(s) && s.flight.Idle? && s.bps > 0 && Owed(s) > s.pacer.tokens.Floor
    ensures Legal(s, steps)
    ensures var t, n := Run(s, steps), s.pacer.tokens.Floor;
            && Paid(s, t, n + 1)
            && Earned(s.bps, t.pacer.last - s.pacer.last) == 1.0 - (s.pacer.tokens - n as real)
  {
    hide Inv, Sum, Refill, Block, Legal, Run, Earned, PacerOk, WholeAt;
    var n := s.pacer.tokens.Floor;
    var first := DrainWhole(s);
    var m := Run(s, first);
    PacerInRange(m);
    WholeToken(m.pacer, m.bps);
    var rest, paid := OneTick(m, WholeAt(m.pacer, m.bps));
    RunConcat(s, first, rest);
    PaidTwice(s, m, Run(m, rest), n, paid);
    steps := first + rest;
  }

  /** The bucket as it is at `now` is handed out to the last whole token, and one more. */
  lemma {:induction false} UseBucket(s: Sys, now: real) returns (steps: seq<Step>)
    requires Inv(s) && s.flight.Idle? && s.bps > 0 && s.pacer.last <= now
    requires Owed(s) > Refill(s.pacer, s.bps, now).tokens.Floor
    ensures Legal(s, steps) && steps != [] && steps[0] == Tick(now)
    ensures var t, k := Run(s, steps), Refill(s.pacer, s.bps, now).tokens;
            Paid(s, t, k.Floor + 1) && Earned(s.bps, t.pacer.last - now) == 1.0 - (k - k.Floor as real)
  {
    hide Inv, Owed, Refill, Block, Legal, Run, Earned, PacerOk;
    PacerInRange(s);
    RefillOk(s.pacer, s.bps, now);
    var k := Refill(s.pacer, s.bps, now).tokens;
    var tick, paid := OneTick(s, now);
    var m := Run(s, tick);
    assert m.pacer.tokens.Floor == k.Floor - paid;
    var rest := DrainAndOneMore(m);
    PaidTwice(s, m, Run(m, rest), paid, k.Floor - paid + 1);
    RunConcat(s, tick, rest);
    steps := tick + rest;
  }

  /** Without a tick, n waiting one-byte calls spend all that was granted, up to n bytes. */
  lemma {:induction false} CashIn(s: Sys, n: nat) returns (steps: seq<Step>)
    requires Inv(s) && !s.remote.closed && UnitsWait(s, n)
    ensures Legal(s, steps) && TickFree(steps)
    ensures Run(s, steps).remote.consumed == s.remote.consumed + MinCredit(n, Unspent(s))
  {
    hide Inv, Legal, Run, UnitsWait;
    InvTotals(s);
    var bytes := MinCredit(n, Unspent(s));
    if bytes == 0 {
      NoMore(s);
      steps := [];
    } else {
      var first := CatchUp(s);
      var m := Run(s, first);
      UnitsKept(s, m, n);
      var rest := FinishUnits(m, n, bytes);
      RunConcat(s, first, rest);
      steps := first + rest;
    }
  }

  /** A stretch in which more is spent than one burst and the rate since `from` allow. */
  ghost predicate Overspends(s: Sys, steps: seq<Step>, from: real)
    requires Inv(s) && Legal(s, steps)
  {
    var t := Run(s, steps);
    Spent(s, t) as real > Burst(s.bps) + Earned(s.bps, t.pacer.last - from)
  }

  /** The account is open, credit is limited at all, and reservations of a little more than a burst are not
      refused as an overflow.  Whether the owner still takes local requests does not matter. */
  ghost predicate Usable(s: Sys) {
    !s.remote.closed && s.bps > 0 && s.remote.desired + Burst(s.bps).Floor + 2 <= MAX_UINT64
  }

  /** Handing the bucket of the moment `now` out and spending every grant overspends, if grants and bucket
      together hold more than a burst. */
  lemma {:induction false} SpendAll(s: Sys, now: real) returns (steps: seq<Step>)
    requires Inv(s) && Usable(s) && s.pacer.last <= now
    requires Unspent(s) as real + Refill(s.pacer, s.bps, now).tokens > Burst(s.bps)
    ensures Legal(s, steps) && Began(s, steps) == now && Overspends(s, steps, now)
  {
    hide Inv, Owed, Refill, Legal, Run, Earned, Began, TickFree, Burst, UnitsWait;
    InvTotals(s);
    BurstFits(s);
    PacerInRange(s);
    RefillOk(s.pacer, s.bps, now);
    var n := Burst(s.bps).Floor + 2;
    var ask := Ask(s, n);
    var m1 := Run(s, ask);
    var pay := UseBucket(m1, now);
    var m2 := Run(m1, pay);
    InvTotals(m2);
    UnitsKept(m1, m2, n);
    var cash := CashIn(m2, n);
    PacerKeptOverRun(m2, cash);
    RunConcat(m1, pay, cash);
    RunConcat(s, ask, pay + cash);
    BeganAtFirst(s, ask, pay + cash);
    steps := ask + (pay + cash);
  }

  lemma FullBucket(p: Pacer, bps: nat) returns (now: real)
    requires bps > 0 && PacerOk(p, bps)
    ensures p.last <= now && Refill(p, bps, now).tokens == Burst(bps)
  {
    hide Burst;
    BurstPositive(bps);
    var d := Burst(bps) / bps as real;
    DivideAndMultiply(Burst(bps), bps);
    now := p.last + d;
    assert now - p.last == d;
    assert Earned(bps, now - p.last) == Burst(bps);
  }

  lemma DivideAndMultiply(x: real, n: nat)
    requires n > 0 && x >= 0.0
    ensures x / n as real >= 0.0 && n as real * (x / n as real) == x
  {
  }

  /** "At most one burst plus the rate" fails for bytes spent.  Counting time from the last tick before the
      stretch, it fails from exactly those states in which the grants not spent yet and the tokens in the
      bucket together exceed one burst. */
  lemma {:induction false} OverspendIffCreditExceedsBurst(s: Sys)
    requires Inv(s) && Usable(s)
    ensures (exists steps :: Legal(s, steps) && Overspends(s, steps, s.pacer.last))
            <==> Unspent(s) as real + s.pacer.tokens > Burst(s.bps)
  {
    hide Inv, Legal, Run, Earned, Burst, Refill;
    if Unspent(s) as real + s.pacer.tokens > Burst(s.bps) {
      PacerInRange(s);
      RefillAtOnce(s.pacer, s.bps);
      var steps := SpendAll(s, s.pacer.last);
    }
    forall steps | Legal(s, steps) && Overspends(s, steps, s.pacer.last)
      ensures Unspent(s) as real + s.pacer.tokens > Burst(s.bps)
    {
      SpentWithinUnspentPlusRate(s, steps);
    }
  }

  /** Counting time from the first tick of the stretch itself, it fails from exactly those states in which
      anything granted is not spent yet. */
  lemma {:induction false} OverspendIffAnyUnspent(s: Sys)
    requires Inv(s) && Usable(s)
    ensures (exists steps :: Legal(s, steps) && Overspends(s, steps, Began(s, steps))) <==> Unspent(s) > 0
  {
    hide Inv, Legal, Run, Earned, Burst, Refill, Began;
    if Unspent(s) > 0 {
      PacerInRange(s);
      var now := FullBucket(s.pacer, s.bps);
      var steps := SpendAll(s, now);
    }
    forall steps | Legal(s, steps) && Overspends(s, steps, Began(s, steps)) ensures Unspent(s) > 0 {
      SpentWithinUnspentPlusRate(s, steps);
    }
  }

  // ---------- a closed account ----------

  lemma {:induction false} ClosedStep(s: Sys, step: Step)
    requires Inv(s) && Enabled(s, step) && s.remote.closed
    ensures var m := Exec(s, step);
            m.remote.closed && m.remote.consumed == s.remote.consumed && m.localPaid - s.localPaid <= m.used - s.used
  {
    hide Inv, Divide, Allocate, Block, Refill;
  }

  lemma {:induction false} ClosedRun(s: Sys, steps: seq<Step>)
    requires Inv(s) && Legal(s, steps) && s.remote.closed
    ensures var t := Run(s, steps);
            t.remote.consumed == s.remote.consumed && t.localPaid - s.localPaid <= t.used - s.used
    decreases |steps|
  {
    hide Inv, Enabled, Exec;
    if steps != [] {
      ExecKeepsInv(s, steps[0]);
      ClosedStep(s, steps[0]);
      ClosedRun(Exec(s, steps[0]), steps[1..]);
    }
  }

  /** Once the account is closed nothing exceeds one burst plus the rate, on either way of counting. */
  lemma {:induction false} ClosedAccountNeverOverspends(s: Sys, steps: seq<Step>)
    requires Inv(s) && Legal(s, steps) && s.remote.closed
    ensures !Overspends(s, steps, Began(s, steps)) && !Overspends(s, steps, s.pacer.last)
  {
    hide Inv, Legal, Run, Earned, Burst, Began;
    ClosedRun(s, steps);
    RunSpends(s, steps);
    EarnedOverRun(s, steps);
    IssuedWithinBurstPlusRate(s, steps);
    InvTotals(s);
    InvTotals(Run(s, steps));
  }
}
