/** Progress of the shared-credit protocol: from every state with an open account every reservation in
    progress can be brought to its end. */
module CreditProgress {
  import opened FairCredit
  import opened Credit
  import opened CreditProtocol
  import opened CreditBurst

  /** No call is before its send; nothing but the phases and the sent demands has changed. */
  ghost predicate AllSent(s: Sys, t: Sys) {
    && t.bps == s.bps && t.remote == s.remote && t.owner == s.owner && t.pacer == s.pacer && t.flight == s.flight
    && t.demands == s.demands && |t.calls| == |s.calls|
    && forall i :: 0 <= i < |t.calls| ==> !t.calls[i].phase.Raised?
  }

  /** Every call from the k-th on sends its demand. */
  lemma {:induction false} SendAll(s: Sys, k: nat) returns (steps: seq<Step>)
    requires Inv(s) && k <= |s.calls| && forall i :: 0 <= i < k ==> !s.calls[i].phase.Raised?
    ensures Legal(s, steps) && AllSent(s, Run(s, steps))
    decreases |s.calls| - k
  {
    hide Inv, Legal, Run;
    if k == |s.calls| {
      NoMore(s);
      steps := [];
    } else if s.calls[k].phase.Raised? {
      CallsAndDemands(s);
      ExecKeepsInv(s, SendDemand(k, true));
      var m := Exec(s, SendDemand(k, true));
      var rest := SendAll(m, k + 1);
      RunCons(s, SendDemand(k, true), rest);
      steps := [SendDemand(k, true)] + rest;
    } else {
      steps := SendAll(s, k + 1);
    }
  }

  /** When nobody is before its send, the newest demand has been sent. */
  lemma NewestIsSent(s: Sys)
    requires Inv(s) && !s.remote.closed && s.calls != []
    requires forall i :: 0 <= i < |s.calls| ==> !s.calls[i].phase.Raised?
    ensures NewestSent(s)
  {
    hide GrantsOrdered, AtHighestDemand, AtHighestGrant, PaidFor, DesireAccounted, RemoteOk, OwnerOk;
    var n := |s.calls| - 1;
    assert s.demands[n] in s.sentDemands;
    assert s.demands[n] == Demand(s.remote.sequence, s.remote.desired);
  }

  /** The next moment at which there is a whole token. */
  lemma NextToken(p: Pacer, bps: nat) returns (now: real)
    requires bps > 0 && PacerOk(p, bps)
    ensures p.last <= now && Block(p, bps, now) >= 1
  {
    hide Burst;
    if p.tokens >= 1.0 {
      now := p.last;
      RefillAtOnce(p, bps);
    } else {
      now := WholeAt(p, bps);
      WholeToken(p, bps);
    }
  }

  /** Tick by tick the owner pays all that is asked of it. */
  lemma {:induction false} PayAll(s: Sys) returns (steps: seq<Step>)
    requires Inv(s) && s.flight.Idle? && s.bps > 0
    ensures Legal(s, steps)
    ensures Paid(s, Run(s, steps), Owed(s)) && Run(s, steps).owner.remoteGranted == s.owner.remoteDesired
    decreases Owed(s)
  {
    hide Inv, Legal, Run, Sum, Block, Refill, PacerOk;
    OwedIsNatural(s);
    if Owed(s) == 0 {
      NoMore(s);
      steps := [];
    } else {
      PacerInRange(s);
      var now := NextToken(s.pacer, s.bps);
      var first, paid := OneTick(s, now);
      var m := Run(s, first);
      OwedIsNatural(m);
      var rest := PayAll(m);
      PaidTwice(s, m, Run(m, rest), paid, Owed(m));
      RunConcat(s, first, rest);
      steps := first + rest;
    }
  }

  lemma OwedIsNatural(s: Sys)
    requires Inv(s)
    ensures Owed(s) >= 0 && (Owed(s) == 0 ==> s.owner.remoteGranted == s.owner.remoteDesired)
  {
    hide Sum;
    InvTotals(s);
  }

  /** The owner comes to know of everything wanted and grants it, and the grant arrives. */
  lemma {:induction false} GrantAll(s: Sys) returns (steps: seq<Step>)
    requires Inv(s) && NewestSent(s) && s.bps > 0 && s.remote.desired > 0
    ensures Legal(s, steps)
    ensures var t := Run(s, steps);
            t.calls == s.calls && t.remote.closed == s.remote.closed && t.remote.granted == t.remote.desired
  {
    hide Inv, Legal, Run, NewestSent, Exec, Enabled, Owed;
    DeliverNewest(s);
    var step := DeliverDemand(Demand(s.remote.sequence, s.remote.desired));
    ExecKeepsInv(s, step);
    var s1 := Exec(s, step);
    var a := Settle(s1);
    var s2 := Run(s1, a);
    var b := PayAll(s2);
    var s3 := Run(s2, b);
    var c := CatchUp(s3);
    RunConcat(s2, b, c);
    RunConcat(s1, a, b + c);
    RunCons(s, step, a + (b + c));
    steps := [step] + (a + (b + c));
  }

  /** From every state with an open account and a rate, whatever was lost, some continuation finishes every
      reservation: it is sent, granted and spent. */
  lemma {:induction false} EveryReservationCanFinish(s: Sys) returns (steps: seq<Step>)
    requires Inv(s) && !s.remote.closed && s.bps > 0
    ensures Legal(s, steps)
    ensures var t := Run(s, steps);
            |t.calls| == |s.calls| && forall i :: 0 <= i < |t.calls| ==> t.calls[i].phase.Finished?
  {
    hide Inv, Legal, Run, NewestSent;
    if s.calls == [] {
      NoMore(s);
      steps := [];
    } else {
      var a := SendAll(s, 0);
      var s1 := Run(s, a);
      NewestIsSent(s1);
      SomethingDesired(s1);
      var b := GrantAll(s1);
      var s2 := Run(s1, b);
      var c := AllWaitingCanFinish(s2, 0);
      RunConcat(s1, b, c);
      RunConcat(s, a, b + c);
      NobodyFailed(s2);
      steps := a + (b + c);
    }
  }

  lemma SomethingDesired(s: Sys)
    requires Inv(s) && s.calls != []
    ensures s.remote.desired > 0
  {
    hide CallsSent, GrantsOrdered, AtHighestDemand, AtHighestGrant, PaidFor, DesireAccounted, OwnerOk;
  }

  lemma NobodyFailed(s: Sys)
    requires Inv(s) && !s.remote.closed
    ensures forall i :: 0 <= i < |s.calls| ==> !s.calls[i].phase.Failed?
  {
    hide DemandsOrdered, GrantsOrdered, AtHighestDemand, AtHighestGrant, PaidFor, DesireAccounted, RemoteOk, OwnerOk;
  }
}
