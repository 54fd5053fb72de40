/** Local requests of the owner are finished in the order in which they were accepted. */
module CreditFifo {
  import opened FairCredit
  import opened Credit
  import opened CreditProtocol

  /** The id that a step adds to those accepted: a reservation of some bytes while the owner is open. */
  function AcceptedBy(s: Sys, step: Step): seq<nat> {
    if step.LocalReserve? && step.size > 0 && !s.owner.closed then [step.id] else []
  }

  ghost function Accepted(s: Sys, steps: seq<Step>): seq<nat>
    requires Inv(s) && Legal(s, steps)
    decreases |steps|
  {
    if steps == [] then []
    else
      ExecKeepsInv(s, steps[0]);
      AcceptedBy(s, steps[0]) + Accepted(Exec(s, steps[0]), steps[1..])
  }

  /** The ids that a tick finishes, in the order in which it takes them off the queue. */
  ghost function FinishedBy(s: Sys, step: Step): seq<nat>
    requires Inv(s) && Enabled(s, step)
  {
    var left := |Exec(s, step).owner.local|;
    if step.Tick? && left <= |s.owner.local| then Ids(s.owner.local[..|s.owner.local| - left]) else []
  }

  ghost function Finished(s: Sys, steps: seq<Step>): seq<nat>
    requires Inv(s) && Legal(s, steps)
    decreases |steps|
  {
    if steps == [] then []
    else
      ExecKeepsInv(s, steps[0]);
      FinishedBy(s, steps[0]) + Finished(Exec(s, steps[0]), steps[1..])
  }

  lemma IdsConcat(a: seq<Request>, b: seq<Request>)
    ensures Ids(a + b) == Ids(a) + Ids(b)
  {
  }

  /** A tick takes ids off the front and keeps the others in order. */
  lemma {:induction false} DrainKeepsOrder(local: seq<Request>, credit: nat)
    requires credit <= Sum(local) && forall i :: 0 <= i < |local| ==> 0 < local[i].remaining
    ensures var left := Drain(local, credit);
            |left| <= |local| && Ids(local) == Ids(local[..|local| - |left|]) + Ids(left)
  {
    hide Drain, Sum;
    var k := DrainIsFifo(local, credit);
    var left := Drain(local, credit);
    if k == |local| {
      assert local[..k] == local && Ids(left) == [];
    } else {
      assert |left| == |local| - k;
      assert local == local[..k] + local[k..];
      IdsConcat(local[..k], local[k..]);
      assert Ids(local[k..]) == Ids(left);
    }
  }

  lemma {:induction false} TickKeepsOrder(s: Sys, now: real)
    requires Inv(s) && Enabled(s, Tick(now))
    ensures var left := Exec(s, Tick(now)).owner.local;
            && |left| <= |s.owner.local|
            && Ids(s.owner.local) == Ids(s.owner.local[..|s.owner.local| - |left|]) + Ids(left)
  {
    hide CallsSent, DemandsOrdered, GrantsOrdered, AtHighestDemand, AtHighestGrant, DesireAccounted;
    hide Refill, Divide, Drain, Sum, Ids;
    var available := Block(s.pacer, s.bps, now);
    AllocateIsExact(s.owner, available);
    DrainIsPart(s.owner, available);
    DrainNothing(s.owner.local);
    NoIds();
    assert s.owner.local[..0] == [];
    DrainKeepsOrder(s.owner.local, Divide(s.owner, available).localGrant);
  }

  lemma DrainIsPart(o: Owner, available: uint64)
    requires OwnerOk(o)
    ensures Divide(o, available).localGrant <= Sum(o.local)
    ensures forall i :: 0 <= i < |o.local| ==> 0 < o.local[i].remaining
  {
    hide FairAllocation, Sum;
  }

  lemma {:induction false} StepKeepsOrder(s: Sys, step: Step)
    requires Inv(s) && Enabled(s, step)
    ensures Ids(s.owner.local) + AcceptedBy(s, step) == FinishedBy(s, step) + Ids(Exec(s, step).owner.local)
  {
    if step.Tick? {
      TickKeepsOrder(s, step.now);
    } else {
      OtherStep(s, step);
    }
  }

  lemma {:induction false} OtherStep(s: Sys, step: Step)
    requires Inv(s) && Enabled(s, step) && !step.Tick?
    ensures Ids(Exec(s, step).owner.local) == Ids(s.owner.local) + AcceptedBy(s, step)
  {
    hide Inv;
  }

  lemma Regroup(before: seq<nat>, a1: seq<nat>, a2: seq<nat>, f1: seq<nat>, mid: seq<nat>, f2: seq<nat>,
                after: seq<nat>)
    requires before + a1 == f1 + mid && mid + a2 == f2 + after
    ensures before + (a1 + a2) == (f1 + f2) + after
  {
    calc {
      before + (a1 + a2);
      (before + a1) + a2;
      (f1 + mid) + a2;
      f1 + (mid + a2);
      f1 + (f2 + after);
      (f1 + f2) + after;
    }
  }

  lemma {:induction false} RunKeepsOrder(s: Sys, steps: seq<Step>)
    requires Inv(s) && Legal(s, steps)
    ensures Ids(s.owner.local) + Accepted(s, steps) == Finished(s, steps) + Ids(Run(s, steps).owner.local)
    decreases |steps|
  {
    hide Inv, Enabled, Exec, AcceptedBy, FinishedBy, Ids;
    if steps != [] {
      ExecKeepsInv(s, steps[0]);
      StepKeepsOrder(s, steps[0]);
      var m, rest := Exec(s, steps[0]), steps[1..];
      RunKeepsOrder(m, rest);
      Regroup(Ids(s.owner.local), AcceptedBy(s, steps[0]), Accepted(m, rest), FinishedBy(s, steps[0]),
              Ids(m.owner.local), Finished(m, rest), Ids(Run(m, rest).owner.local));
    }
  }

  /** In every run the local requests finished so far, followed by those still queued, are the requests
      accepted, in the order of their calls. */
  lemma {:induction false} LocalRequestsAreFifo(bps: nat, start: real, steps: seq<Step>)
    requires bps <= MAX_INT64 && Legal(Init(bps, start), steps)
    ensures var s := Init(bps, start);
            Finished(s, steps) + Ids(Run(s, steps).owner.local) == Accepted(s, steps)
  {
    hide Inv, Legal, Run;
    RunKeepsOrder(Init(bps, start), steps);
    NoIds();
  }
}
