/** The shared-credit protocol as a whole: both ends, every reservation in progress, and a network
    that loses, duplicates and reorders messages.  A message once sent may be delivered at any
    later time, any number of times, or never; a send that reports an error delivers nothing. */
module CreditProtocol {
  import opened FairCredit
  import opened Credit

  /** Where a call of the remote Reserve is: before its send, waiting, done, or given up. */
  datatype Phase = Raised | Waiting | Finished | Failed
  datatype Reservation = Reservation(bytes: nat, phase: Phase)

  /** Whether allocate has dropped its lock to send a grant. */
  datatype Flight = Idle | Sending(grant: Grant, amount: nat)

  datatype Sys = Sys(
    bps: nat,
    remote: Remote, calls: seq<Reservation>, demands: seq<Demand>,   // the i-th call sends the i-th demand
    owner: Owner, pacer: Pacer, flight: Flight,
    sentDemands: set<Demand>, deliveredDemands: set<Demand>,
    sentGrants: set<Grant>, deliveredGrants: set<Grant>,
    // history: the last grant sent, when the scheduler started, tokens earned and spent, bytes paid
    // to local requests, ticks taken
    lastSent: Grant, start: real, earned: real, used: nat, localPaid: nat, ticks: nat)

  datatype Step =
    | Begin(bytes: int)
    | SendDemand(call: nat, ok: bool)
    | Finish(call: nat)
    | CloseRemote
    | LocalReserve(id: nat, size: int)
    | DeliverDemand(demand: Demand)
    | DeliverGrant(grant: Grant)
    | Tick(now: real)
    | SendGrant(ok: bool)
    | CloseOwner

  function Init(bps: nat, start: real): (s: Sys)
    requires bps <= MAX_INT64
    ensures Inv(s)
  {
    Sys(bps, Remote(0, 0, 0, 0, 0, false), [], [], Owner(0, 0, 0, 0, [], false, false), Pacer(0.0, start), Idle,
        {}, {}, {}, {}, Grant(0, 0), start, 0.0, 0, 0, 0)
  }

  ghost predicate Enabled(s: Sys, step: Step) {
    match step
    case Begin(bytes) => bytes <= MAX_INT64
    case SendDemand(call, ok) => call < |s.calls| && s.calls[call].phase.Raised?
    case Finish(call) => call < |s.calls| && s.calls[call].phase.Waiting?
    case DeliverDemand(d) => d in s.sentDemands
    case DeliverGrant(g) => g in s.sentGrants
    case Tick(now) => s.flight.Idle? && s.pacer.last <= now
    case SendGrant(ok) => s.flight.Sending?
    case _ => true
  }

  function SetPhase(s: Sys, call: nat, phase: Phase): Sys
    requires call < |s.calls|
  {
    s.(calls := s.calls[call := s.calls[call].(phase := phase)])
  }

  function DoBegin(s: Sys, bytes: int): Sys {
    var (remote, start) := BeginReserve(s.remote, bytes);
    if start.Demanded? then
      s.(remote := remote, calls := s.calls + [Reservation(bytes, Raised)], demands := s.demands + [start.demand])
    else s
  }

  function DoSendDemand(s: Sys, call: nat, ok: bool): Sys
    requires call < |s.calls| == |s.demands|
  {
    if ok then SetPhase(s.(sentDemands := s.sentDemands + {s.demands[call]}), call, Waiting)
    else SetPhase(s.(remote := s.remote.(closed := true)), call, Failed)
  }

  function DoFinish(s: Sys, call: nat): Sys
    requires call < |s.calls|
  {
    var bytes := s.calls[call].bytes;
    if s.remote.closed then SetPhase(s, call, Failed)
    else if CanConsume(s.remote, bytes) then SetPhase(s.(remote := Consume(s.remote, bytes)), call, Finished)
    else s
  }

  function DoTick(s: Sys, now: real): Sys
    requires PacerOk(s.pacer, s.bps) && OwnerOk(s.owner) && s.pacer.last <= now
  {
    var pacer, available := Refill(s.pacer, s.bps, now), Block(s.pacer, s.bps, now);
    var t := s.(pacer := pacer, earned := s.earned + Earned(s.bps, now - s.pacer.last), ticks := s.ticks + 1);
    if available == 0 then t
    else
      var r, owner := Divide(s.owner, available), Allocate(s.owner, available);
      var spent := r.remoteGrant + r.localGrant;
      t.(owner := owner,
         pacer := pacer.(tokens := pacer.tokens - spent as real),
         flight := if r.remoteGrant > 0
             then Sending(Grant(owner.grantSequence, owner.remoteGranted), r.remoteGrant) else Idle,
         used := s.used + spent, localPaid := s.localPaid + r.localGrant)
  }

  function DoSendGrant(s: Sys, ok: bool): Sys
    requires s.flight.Sending? && s.flight.amount <= s.owner.remoteGranted
  {
    if ok then s.(flight := Idle, sentGrants := s.sentGrants + {s.flight.grant}, lastSent := s.flight.grant)
    else s.(flight := Idle, owner := s.owner.(remoteGranted := s.owner.remoteGranted - s.flight.amount))
  }

  function Exec(s: Sys, step: Step): Sys
    requires Inv(s) && Enabled(s, step)
  {
    match step
    case Begin(bytes) => DoBegin(s, bytes)
    case SendDemand(call, ok) => DoSendDemand(s, call, ok)
    case Finish(call) => DoFinish(s, call)
    case CloseRemote => s.(remote := s.remote.(closed := true))
    case LocalReserve(id, size) => s.(owner := AddLocal(s.owner, id, size))
    case DeliverDemand(d) => s.(owner := AfterDemand(s.owner, d), deliveredDemands := s.deliveredDemands + {d})
    case DeliverGrant(g) => s.(remote := AfterGrant(s.remote, g), deliveredGrants := s.deliveredGrants + {g})
    case Tick(now) => DoTick(s, now)
    case SendGrant(ok) => DoSendGrant(s, ok)
    case CloseOwner => s.(owner := s.owner.(closed := true))
  }

  // ---------- the invariant ----------

  /** Bytes of the reservations that are still in progress. */
  function Outstanding(calls: seq<Reservation>): nat {
    if calls == [] then 0
    else (if calls[0].phase.Raised? || calls[0].phase.Waiting? then calls[0].bytes else 0) + Outstanding(calls[1..])
  }

  /** What the owner has granted and not taken back, without a grant whose send is undecided. */
  function Committed(granted: nat, flight: Flight): int {
    if flight.Sending? then granted - flight.amount else granted
  }

  ghost predicate DemandsOrdered(sequence: nat, desired: nat, demands: seq<Demand>, sent: set<Demand>,
                                 delivered: set<Demand>) {
    && |demands| == sequence && desired == (if |demands| == 0 then 0 else demands[|demands| - 1].total)
    && (forall i :: 0 <= i < |demands| ==> demands[i].sequence == i + 1 && 0 < demands[i].total <= desired)
    && (forall i, j :: 0 <= i <= j < |demands| ==> demands[i].total <= demands[j].total)
    && (forall d :: d in sent ==> 0 < d.sequence <= |demands| && demands[d.sequence - 1] == d)
    && delivered <= sent
  }

  /** `committed` is what the owner has granted and not taken back, without a grant whose send is
      still undecided; `last` is the last grant that was sent. */
  ghost predicate GrantsOrdered(sequence: nat, granted: nat, flight: Flight, last: Grant,
                                sent: set<Grant>, delivered: set<Grant>, ticks: nat) {
    && last.total == Committed(granted, flight)
    && last.sequence <= sequence <= ticks
    && (last.total > 0 ==> last in sent)
    && (forall g :: g in sent ==> 0 < g.sequence <= last.sequence && 0 < g.total <= last.total)
    && (forall g, h :: g in sent && h in sent && g.sequence <= h.sequence ==>
          g.total <= h.total && (g.sequence == h.sequence ==> g == h))
    && (flight.Sending? ==>
          && flight.grant == Grant(sequence, granted)
          && 0 < flight.amount <= granted
          && last.sequence < sequence)
    && delivered <= sent
  }

  /** A receiver stands at the delivered message with the highest sequence. */
  ghost predicate AtHighestDemand(sequence: nat, total: nat, delivered: set<Demand>) {
    && (forall d :: d in delivered ==> d.sequence <= sequence)
    && (delivered == {} ==> sequence == 0 && total == 0)
    && (delivered != {} ==> Demand(sequence, total) in delivered)
  }

  ghost predicate AtHighestGrant(sequence: nat, total: nat, delivered: set<Grant>) {
    && (forall g :: g in delivered ==> g.sequence <= sequence)
    && (delivered == {} ==> sequence == 0 && total == 0)
    && (delivered != {} ==> Grant(sequence, total) in delivered)
  }

  /** No token is spent twice, and every byte granted was paid for with a token. */
  ghost predicate PaidFor(bps: nat, pacer: Pacer, remoteGranted: nat, localPaid: nat, used: nat, earned: real) {
    && PacerOk(pacer, bps)
    && remoteGranted + localPaid <= used
    && used as real + pacer.tokens <= earned
  }

  ghost predicate DesireAccounted(remote: Remote, calls: seq<Reservation>) {
    !remote.closed ==> remote.desired == remote.consumed + Outstanding(calls)
  }

  /** Who waits or has finished has sent its demand, and while the account is open nobody has given up. */
  predicate CallOk(closed: bool, call: Reservation, demand: Demand, sent: set<Demand>) {
    && (call.phase.Waiting? || call.phase.Finished? ==> demand in sent)
    && (call.phase.Failed? ==> closed)
  }

  ghost predicate CallsSent(closed: bool, calls: seq<Reservation>, demands: seq<Demand>, sent: set<Demand>) {
    |calls| == |demands| && forall i :: 0 <= i < |calls| ==> CallOk(closed, calls[i], demands[i], sent)
  }

  ghost predicate Inv(s: Sys) {
    && RemoteOk(s.remote) && OwnerOk(s.owner)
    && s.owner.remoteDesired <= s.remote.desired
    && |s.calls| == |s.demands| && CallsSent(s.remote.closed, s.calls, s.demands, s.sentDemands)
    && DemandsOrdered(s.remote.sequence, s.remote.desired, s.demands, s.sentDemands, s.deliveredDemands)
    && GrantsOrdered(s.owner.grantSequence, s.owner.remoteGranted, s.flight, s.lastSent,
                     s.sentGrants, s.deliveredGrants, s.ticks)
    && AtHighestDemand(s.owner.demandSequence, s.owner.remoteDesired, s.deliveredDemands)
    && AtHighestGrant(s.remote.grantSequence, s.remote.granted, s.deliveredGrants)
    && PaidFor(s.bps, s.pacer, s.owner.remoteGranted, s.localPaid, s.used, s.earned)
    && DesireAccounted(s.remote, s.calls)
  }

  lemma OutstandingAppend(calls: seq<Reservation>, c: Reservation)
    ensures Outstanding(calls + [c]) == Outstanding(calls) + Outstanding([c])
  {
    if calls != [] {
      assert (calls + [c])[1..] == calls[1..] + [c];
    }
  }

  lemma OutstandingUpdate(calls: seq<Reservation>, i: nat, c: Reservation)
    requires i < |calls|
    ensures Outstanding(calls[i := c]) == Outstanding(calls) - Outstanding([calls[i]]) + Outstanding([c])
  {
    if i == 0 {
      assert calls[0 := c][1..] == calls[1..];
    } else {
      assert calls[i := c][1..] == calls[1..][i - 1 := c];
      OutstandingUpdate(calls[1..], i - 1, c);
    }
  }

  lemma CallRaised(closed: bool, calls: seq<Reservation>, demands: seq<Demand>, sent: set<Demand>, bytes: nat,
      d: Demand)
    requires CallsSent(closed, calls, demands, sent)
    ensures CallsSent(closed, calls + [Reservation(bytes, Raised)], demands + [d], sent)
  {
  }

  lemma CallMoved(closed: bool, calls: seq<Reservation>, demands: seq<Demand>, sent: set<Demand>,
                  call: nat, phase: Phase, now: bool, more: set<Demand>)
    requires CallsSent(closed, calls, demands, sent) && call < |calls| && sent <= more && (closed ==> now)
    requires phase.Waiting? || phase.Finished? ==> demands[call] in more
    requires phase.Failed? ==> now
    ensures CallsSent(now, calls[call := calls[call].(phase := phase)], demands, more)
  {
  }

  lemma DemandSent(sequence: nat, desired: nat, demands: seq<Demand>, sent: set<Demand>, delivered: set<Demand>, i: nat)
    requires DemandsOrdered(sequence, desired, demands, sent, delivered) && i < |demands|
    ensures DemandsOrdered(sequence, desired, demands, sent + {demands[i]}, delivered)
  {
  }

  lemma DemandRaised(sequence: nat, desired: nat, demands: seq<Demand>, sent: set<Demand>, delivered: set<Demand>,
                     bytes: nat)
    requires DemandsOrdered(sequence, desired, demands, sent, delivered) && bytes > 0
    ensures DemandsOrdered(sequence + 1, desired + bytes, demands +
              [Demand(sequence + 1, desired + bytes)], sent, delivered)
  {
  }

  lemma {:induction false} BeginKeepsInv(s: Sys, bytes: int)
    requires Inv(s) && bytes <= MAX_INT64
    ensures Inv(DoBegin(s, bytes))
  {
    hide GrantsOrdered, AtHighestDemand, AtHighestGrant, PaidFor, CallsSent, DemandsOrdered;
    var start := BeginReserve(s.remote, bytes).1;
    if start.Demanded? {
      OutstandingAppend(s.calls, Reservation(bytes, Raised));
      CallRaised(s.remote.closed, s.calls, s.demands, s.sentDemands, bytes, start.demand);
      DemandRaised(s.remote.sequence, s.remote.desired, s.demands, s.sentDemands, s.deliveredDemands, bytes);
    }
  }

  lemma {:induction false} SendDemandKeepsInv(s: Sys, call: nat, ok: bool)
    requires Inv(s) && Enabled(s, SendDemand(call, ok))
    ensures Inv(DoSendDemand(s, call, ok))
  {
    hide GrantsOrdered, AtHighestDemand, AtHighestGrant, PaidFor, CallsSent, DemandsOrdered;
    OutstandingUpdate(s.calls, call, s.calls[call].(phase := Waiting));
    var sent := s.sentDemands;
    if ok {
      DemandSent(s.remote.sequence, s.remote.desired, s.demands, sent, s.deliveredDemands, call);
      CallMoved(s.remote.closed, s.calls, s.demands, sent, call, Waiting, s.remote.closed, sent + {s.demands[call]});
    } else {
      CallMoved(s.remote.closed, s.calls, s.demands, sent, call, Failed, true, sent);
    }
  }

  lemma {:induction false} FinishKeepsInv(s: Sys, call: nat)
    requires Inv(s) && Enabled(s, Finish(call))
    ensures Inv(DoFinish(s, call))
  {
    hide GrantsOrdered, AtHighestDemand, AtHighestGrant, PaidFor, CallsSent, DemandsOrdered;
    OutstandingUpdate(s.calls, call, s.calls[call].(phase := Finished));
    WaitingHasSent(s, call);
    var phase := if s.remote.closed then Failed else Finished;
    CallMoved(s.remote.closed, s.calls, s.demands, s.sentDemands, call, phase, s.remote.closed, s.sentDemands);
  }

  lemma WaitingHasSent(s: Sys, call: nat)
    requires Inv(s) && call < |s.calls| && s.calls[call].phase.Waiting?
    ensures s.demands[call] in s.sentDemands
  {
    hide GrantsOrdered, AtHighestDemand, AtHighestGrant, PaidFor, DemandsOrdered, DesireAccounted, RemoteOk, OwnerOk;
  }

  /** A sent demand is accepted exactly when it is newer than what the owner stands at. */
  lemma SentDemandIsAccepted(sequence: nat, desired: nat, demands: seq<Demand>, sent: set<Demand>,
                             delivered: set<Demand>, o: Owner, d: Demand)
    requires DemandsOrdered(sequence, desired, demands, sent, delivered) && d in sent
    requires AtHighestDemand(o.demandSequence, o.remoteDesired, delivered)
    ensures AcceptsDemand(o, d) <==> d.sequence > o.demandSequence
    ensures d.total <= desired
  {
    var i := d.sequence - 1;
    if delivered != {} {
      var top := Demand(o.demandSequence, o.remoteDesired);
      assert top in sent;
    }
  }

  lemma DemandDelivered(sequence: nat, desired: nat, demands: seq<Demand>, sent: set<Demand>, delivered: set<Demand>,
                        o: Owner, d: Demand)
    requires DemandsOrdered(sequence, desired, demands, sent, delivered) && d in sent
    requires AtHighestDemand(o.demandSequence, o.remoteDesired, delivered)
    requires AcceptsDemand(o, d) <==> d.sequence > o.demandSequence
    ensures DemandsOrdered(sequence, desired, demands, sent, delivered + {d})
    ensures AtHighestDemand(AfterDemand(o, d).demandSequence, AfterDemand(o, d).remoteDesired, delivered + {d})
  {
    hide AcceptsDemand;
    assert delivered == {} ==> d.sequence > o.demandSequence;
    assert d in delivered + {d};
  }

  lemma {:induction false} DeliverDemandKeepsInv(s: Sys, d: Demand)
    requires Inv(s) && d in s.sentDemands
    ensures Inv(Exec(s, DeliverDemand(d)))
    ensures AcceptsDemand(s.owner, d) <==> d.sequence > s.owner.demandSequence
  {
    hide AtHighestGrant, DesireAccounted, GrantsOrdered, PaidFor, DemandsOrdered, AtHighestDemand, CallsSent;
    SentDemandIsAccepted(s.remote.sequence, s.remote.desired, s.demands, s.sentDemands, s.deliveredDemands, s.owner, d);
    DemandDelivered(s.remote.sequence, s.remote.desired, s.demands, s.sentDemands, s.deliveredDemands, s.owner, d);
  }

  lemma {:induction false} DeliverGrantKeepsInv(s: Sys, g: Grant)
    requires Inv(s) && g in s.sentGrants
    ensures Inv(Exec(s, DeliverGrant(g)))
    ensures AcceptsGrant(s.remote, g) <==> g.sequence > s.remote.grantSequence
  {
    hide AtHighestDemand, PaidFor, CallsSent, DemandsOrdered, Outstanding;
  }

  lemma {:induction false} TickKeepsInv(s: Sys, now: real)
    requires Inv(s) && Enabled(s, Tick(now))
    ensures Inv(DoTick(s, now))
  {
    hide DemandsOrdered, CallsSent, AtHighestGrant, DesireAccounted, Refill, Block, PacerOk, Divide, Allocate;
    var available := Block(s.pacer, s.bps, now);
    var r := Divide(s.owner, available);
    AllocateIsExact(s.owner, available);
    AllocateFrame(s.owner, available);
    SpendOk(s.pacer, s.bps, now, 0);
    SpendOk(s.pacer, s.bps, now, r.remoteGrant + r.localGrant);
  }

  lemma {:induction false} SendGrantKeepsInv(s: Sys, ok: bool)
    requires Inv(s) && Enabled(s, SendGrant(ok))
    ensures Inv(DoSendGrant(s, ok))
  {
    hide DemandsOrdered, CallsSent, AtHighestGrant, DesireAccounted;
  }

  lemma {:induction false} CloseKeepsInv(s: Sys, step: Step)
    requires Inv(s) && (step.CloseRemote? || step.CloseOwner? || step.LocalReserve?)
    ensures Inv(Exec(s, step))
  {
    hide PaidFor, DemandsOrdered, GrantsOrdered, AtHighestDemand, AtHighestGrant, Outstanding;
  }

  lemma {:induction false} ExecKeepsInv(s: Sys, step: Step)
    requires Inv(s) && Enabled(s, step)
    ensures Inv(Exec(s, step))
  {
    hide PaidFor, DemandsOrdered, GrantsOrdered, AtHighestDemand, AtHighestGrant, DesireAccounted, CallsSent;
    hide RemoteOk, OwnerOk;
    match step
    case Begin(bytes) => BeginKeepsInv(s, bytes);
    case SendDemand(call, ok) => SendDemandKeepsInv(s, call, ok);
    case Finish(call) => FinishKeepsInv(s, call);
    case DeliverDemand(d) => DeliverDemandKeepsInv(s, d);
    case DeliverGrant(g) => DeliverGrantKeepsInv(s, g);
    case Tick(now) => TickKeepsInv(s, now);
    case SendGrant(ok) => SendGrantKeepsInv(s, ok);
    case _ => CloseKeepsInv(s, step);
  }

  // ---------- runs ----------

  ghost predicate Legal(s: Sys, steps: seq<Step>)
    requires Inv(s)
    decreases |steps|
  {
    steps == [] ||
    (Enabled(s, steps[0]) && (ExecKeepsInv(s, steps[0]); Legal(Exec(s, steps[0]), steps[1..])))
  }

  ghost function Run(s: Sys, steps: seq<Step>): (t: Sys)
    requires Inv(s) && Legal(s, steps)
    ensures Inv(t)
    decreases |steps|
  {
    if steps == [] then s else (ExecKeepsInv(s, steps[0]); Run(Exec(s, steps[0]), steps[1..]))
  }

  /** After every run the totals stand in one order, so none of the unsigned subtractions of either
      end can wrap; the grant sequence is bounded by the ticks taken; and while the account is open it
      has asked for exactly what it spent plus what its pending reservations want. */
  lemma {:induction false} TotalsStayOrdered(s: Sys, steps: seq<Step>)
    requires Inv(s) && Legal(s, steps)
    ensures var t := Run(s, steps);
            && t.remote.consumed <= t.remote.granted <= t.owner.remoteGranted
            && t.owner.remoteGranted <= t.owner.remoteDesired <= t.remote.desired <= MAX_UINT64
            && t.owner.grantSequence <= t.ticks
            && (!t.remote.closed ==> t.remote.desired == t.remote.consumed + Outstanding(t.calls))
  {
    InvTotals(Run(s, steps));
  }

  lemma InvTotals(s: Sys)
    requires Inv(s)
    ensures s.remote.consumed <= s.remote.granted <= s.lastSent.total <= s.owner.remoteGranted
    ensures s.owner.remoteGranted <= s.owner.remoteDesired <= s.remote.desired <= MAX_UINT64
    ensures s.owner.grantSequence <= s.ticks
    ensures s.owner.remoteGranted + s.localPaid <= s.used
    ensures 0.0 <= s.pacer.tokens <= Burst(s.bps) && s.used as real + s.pacer.tokens <= s.earned
  {
    hide DemandsOrdered, AtHighestDemand, Outstanding, CallsSent;
  }

  /** A grant of an honest owner that is newer than what the account has seen is never rejected,
      however late it arrives; likewise a demand. */
  lemma {:induction false} HonestMessagesAreAccepted(s: Sys, steps: seq<Step>)
    requires Inv(s) && Legal(s, steps)
    ensures var t := Run(s, steps);
            && (forall g :: g in t.sentGrants && t.remote.grantSequence < g.sequence ==> AcceptsGrant(t.remote, g))
            && (forall d :: d in t.sentDemands && t.owner.demandSequence < d.sequence ==> AcceptsDemand(t.owner, d))
  {
    var t := Run(s, steps);
    forall g | g in t.sentGrants && t.remote.grantSequence < g.sequence ensures AcceptsGrant(t.remote, g) {
      DeliverGrantKeepsInv(t, g);
    }
    forall d | d in t.sentDemands && t.owner.demandSequence < d.sequence ensures AcceptsDemand(t.owner, d) {
      DeliverDemandKeepsInv(t, d);
    }
  }

  /** The order, number and interleaving of deliveries do not matter: two runs in which the same
      messages arrived leave both receivers at the same totals. */
  lemma {:induction false} DeliveryOrderIsIrrelevant(s: Sys, t: Sys)
    requires Inv(s) && Inv(t)
    ensures s.deliveredGrants == t.deliveredGrants ==>
              s.remote.granted == t.remote.granted && s.remote.grantSequence == t.remote.grantSequence
    ensures s.deliveredDemands == t.deliveredDemands ==>
              s.owner.remoteDesired == t.owner.remoteDesired && s.owner.demandSequence == t.owner.demandSequence
  {
    hide PaidFor, Outstanding, DesireAccounted, CallsSent;
  }

  /** After every run each receiver stands at the delivered message with the highest sequence. */
  lemma {:induction false} ReceiversStandAtHighest(s: Sys, steps: seq<Step>)
    requires Inv(s) && Legal(s, steps)
    ensures var t := Run(s, steps);
            && (forall g :: g in t.deliveredGrants ==> g.sequence <= t.remote.grantSequence)
            && (t.deliveredGrants != {} ==> Grant(t.remote.grantSequence, t.remote.granted) in t.deliveredGrants)
            && (forall d :: d in t.deliveredDemands ==> d.sequence <= t.owner.demandSequence)
            && (t.deliveredDemands != {} ==>
                Demand(t.owner.demandSequence, t.owner.remoteDesired) in t.deliveredDemands)
  {
    hide PaidFor, Outstanding, DesireAccounted, CallsSent;
  }

  // ---------- the rate ----------

  lemma {:induction false} EarnedOverRun(s: Sys, steps: seq<Step>)
    requires Inv(s) && Legal(s, steps)
    ensures var t := Run(s, steps);
            && t.bps == s.bps && t.start == s.start && s.pacer.last <= t.pacer.last
            && t.earned == s.earned + Earned(s.bps, t.pacer.last - s.pacer.last)
    decreases |steps|
  {
    hide Inv, Enabled, Exec;
    if steps == [] {
      assert Earned(s.bps, 0.0) == 0.0;
    } else {
      var m := Exec(s, steps[0]);
      ExecKeepsInv(s, steps[0]);
      EarnedOverRun(m, steps[1..]);
      EarnedByStep(s, steps[0]);
      EarnedAdds(s.bps, s.pacer.last, m.pacer.last, Run(s, steps).pacer.last);
    }
  }

  lemma EarnedAdds(bps: nat, a: real, b: real, c: real)
    ensures Earned(bps, c - a) == Earned(bps, b - a) + Earned(bps, c - b)
  {
  }

  lemma {:induction false} EarnedByStep(s: Sys, step: Step)
    requires Inv(s) && Enabled(s, step)
    ensures var m := Exec(s, step);
            && m.bps == s.bps && m.start == s.start
            && s.pacer.last <= m.pacer.last
            && m.earned == s.earned + Earned(s.bps, m.pacer.last - s.pacer.last)
  {
    hide Inv, Divide, Allocate, Block;
    if step.Tick? {
    } else {
      assert Earned(s.bps, 0.0) == 0.0;
    }
  }

  /** What one step adds to the bytes granted is paid from tokens, and the tokens it spends were in
      the bucket or were earned during the step. */
  lemma {:induction false} StepSpends(s: Sys, step: Step)
    requires Inv(s) && Enabled(s, step)
    ensures var m := Exec(s, step);
            && s.used <= m.used && s.localPaid <= m.localPaid && s.remote.consumed <= m.remote.consumed
            && (m.owner.remoteGranted + m.localPaid) - (s.owner.remoteGranted + s.localPaid) <= m.used - s.used
            && (m.used - s.used) as real + m.pacer.tokens <= s.pacer.tokens + (m.earned - s.earned)
            && (!step.Tick? ==> m.used == s.used && m.localPaid == s.localPaid)
            && (step != SendGrant(false) ==> s.owner.remoteGranted <= m.owner.remoteGranted)
  {
    hide DemandsOrdered, AtHighestDemand, AtHighestGrant, DesireAccounted, CallsSent;
    hide Refill, Block, Divide, Allocate, Earned;
    if step.Tick? {
      var available := Block(s.pacer, s.bps, step.now);
      var r := Divide(s.owner, available);
      AllocateIsExact(s.owner, available);
      SpendOk(s.pacer, s.bps, step.now, 0);
      SpendOk(s.pacer, s.bps, step.now, r.remoteGrant + r.localGrant);
    }
  }

  lemma {:induction false} RunSpends(s: Sys, steps: seq<Step>)
    requires Inv(s) && Legal(s, steps)
    ensures var t := Run(s, steps);
            && s.used <= t.used && s.localPaid <= t.localPaid && s.remote.consumed <= t.remote.consumed
            && (t.owner.remoteGranted + t.localPaid) - (s.owner.remoteGranted + s.localPaid) <= t.used - s.used
            && (t.used - s.used) as real + t.pacer.tokens <= s.pacer.tokens + (t.earned - s.earned)
            && ((forall i :: 0 <= i < |steps| ==> !steps[i].Tick?) ==> t.used == s.used && t.localPaid == s.localPaid)
            && (SendGrant(false) !in steps ==> s.owner.remoteGranted <= t.owner.remoteGranted)
    decreases |steps|
  {
    hide Inv, Enabled, Exec;
    if steps != [] {
      ExecKeepsInv(s, steps[0]);
      StepSpends(s, steps[0]);
      RunSpends(Exec(s, steps[0]), steps[1..]);
      assert forall i :: 0 <= i < |steps[1..]| ==> steps[1..][i] == steps[i + 1];
    }
  }

  /** The rate from the start: bytes spent by the remote end plus bytes granted to local requests
      never exceed TotalBPS times the time since the scheduler started. */
  lemma {:induction false} NeverFasterThanRate(bps: nat, start: real, steps: seq<Step>)
    requires bps <= MAX_INT64 && Legal(Init(bps, start), steps)
    ensures var t := Run(Init(bps, start), steps);
            (t.remote.consumed + t.localPaid) as real <= Earned(bps, t.pacer.last - start)
  {
    hide Inv, Legal, Run, Earned;
    EarnedOverRun(Init(bps, start), steps);
    InvTotals(Run(Init(bps, start), steps));
  }

  // ---------- putting runs together ----------

  lemma {:induction false} RunCons(s: Sys, step: Step, rest: seq<Step>)
    requires Inv(s) && Enabled(s, step) && Inv(Exec(s, step)) && Legal(Exec(s, step), rest)
    ensures Legal(s, [step] + rest) && Run(s, [step] + rest) == Run(Exec(s, step), rest)
  {
    hide Inv, Enabled, Exec;
    assert ([step] + rest)[1..] == rest;
  }

  lemma {:induction false} RunConcat(s: Sys, first: seq<Step>, rest: seq<Step>)
    requires Inv(s) && Legal(s, first) && Legal(Run(s, first), rest)
    ensures Legal(s, first + rest) && Run(s, first + rest) == Run(Run(s, first), rest)
    decreases |first|
  {
    hide Inv, Enabled, Exec;
    if first == [] {
      assert first + rest == rest;
    } else {
      ExecKeepsInv(s, first[0]);
      RunConcat(Exec(s, first[0]), first[1..], rest);
      RunCons(s, first[0], first[1..] + rest);
      assert [first[0]] + (first[1..] + rest) == first + rest;
    }
  }

  lemma NoMore(s: Sys)
    requires Inv(s)
    ensures Legal(s, []) && Run(s, []) == s
  {
  }

  ghost predicate TickFree(steps: seq<Step>) {
    forall i :: 0 <= i < |steps| ==> !steps[i].Tick?
  }

  // ---------- waiting reservations finish ----------

  lemma {:induction false} WaitingFits(s: Sys, k: nat)
    requires Inv(s) && !s.remote.closed && k < |s.calls| && s.calls[k].phase.Waiting?
    requires s.remote.granted == s.remote.desired
    ensures CanConsume(s.remote, s.calls[k].bytes)
  {
    hide CallsSent, DemandsOrdered, GrantsOrdered, AtHighestDemand, AtHighestGrant, PaidFor;
    OutstandingUpdate(s.calls, k, s.calls[k].(phase := Failed));
  }

  /** While the account is open its demand is exactly what it spent plus what is pending, so once
      everything demanded is granted, every waiting reservation from the k-th on can finish, in turn. */
  lemma {:induction false} AllWaitingCanFinish(s: Sys, k: nat) returns (steps: seq<Step>)
    requires Inv(s) && !s.remote.closed && s.remote.granted == s.remote.desired && k <= |s.calls|
    ensures Legal(s, steps)
    ensures var t := Run(s, steps);
            && |t.calls| == |s.calls|
            && forall i :: 0 <= i < |s.calls| ==>
                 t.calls[i] == if k <= i && s.calls[i].phase.Waiting? then s.calls[i].(phase := Finished)
                     else s.calls[i]
    decreases |s.calls| - k
  {
    hide Inv, RemoteOk, OwnerOk;
    if k == |s.calls| {
      steps := [];
    } else if s.calls[k].phase.Waiting? {
      WaitingFits(s, k);
      ExecKeepsInv(s, Finish(k));
      var rest := AllWaitingCanFinish(Exec(s, Finish(k)), k + 1);
      RunCons(s, Finish(k), rest);
      steps := [Finish(k)] + rest;
    } else {
      steps := AllWaitingCanFinish(s, k + 1);
    }
  }

  // ---------- fairness over runs ----------

  ghost predicate ContestedTick(s: Sys, step: Step)
    requires Inv(s) && Enabled(s, step)
  {
    && step.Tick?
    && Block(s.pacer, s.bps, step.now) > 0
    && Divide(s.owner, Block(s.pacer, s.bps, step.now)).contested
  }

  /** Whether a legal sequence of steps has no contested round in it. */
  ghost predicate Uncontested(s: Sys, steps: seq<Step>)
    requires Inv(s) && Legal(s, steps)
    decreases |steps|
  {
    steps == [] ||
    (!ContestedTick(s, steps[0]) && (ExecKeepsInv(s, steps[0]); Uncontested(Exec(s, steps[0]), steps[1..])))
  }

  lemma {:induction false} PreferenceKept(s: Sys, steps: seq<Step>)
    requires Inv(s) && Legal(s, steps) && Uncontested(s, steps)
    ensures Run(s, steps).owner.preferRemote == s.owner.preferRemote
    decreases |steps|
  {
    hide Inv, Enabled, Exec;
    if steps != [] {
      ExecKeepsInv(s, steps[0]);
      StepPreference(s, steps[0]);
      PreferenceKept(Exec(s, steps[0]), steps[1..]);
    }
  }

  lemma {:induction false} StepPreference(s: Sys, step: Step)
    requires Inv(s) && Enabled(s, step)
    ensures Exec(s, step).owner.preferRemote == if ContestedTick(s, step) then !s.owner.preferRemote
              else s.owner.preferRemote
    ensures ContestedTick(s, step) ==>
              var m, r := Exec(s, step), Divide(s.owner, Block(s.pacer, s.bps, step.now));
              && m.owner.remoteGranted == s.owner.remoteGranted + r.remoteGrant
              && m.localPaid == s.localPaid + r.localGrant
  {
    hide CallsSent, DemandsOrdered, GrantsOrdered, AtHighestDemand, AtHighestGrant, DesireAccounted;
    hide Refill, Divide, Allocate;
    if step.Tick? {
      AllocateFrame(s.owner, Block(s.pacer, s.bps, step.now));
      AllocateIsExact(s.owner, Block(s.pacer, s.bps, step.now));
    }
  }

  /** When no send fails, a contested round, any steps without another contested round, and one more
      contested round give the remote side at least one byte and the local side at least one byte. */
  lemma {:induction false} ContestedRoundsServeBoth(s: Sys, now1: real, mid: seq<Step>, now2: real)
    requires Inv(s) && Enabled(s, Tick(now1)) && ContestedTick(s, Tick(now1))
    requires Inv(Exec(s, Tick(now1))) && Legal(Exec(s, Tick(now1)), mid) && Uncontested(Exec(s, Tick(now1)), mid)
    requires SendGrant(false) !in mid
    requires var t := Run(Exec(s, Tick(now1)), mid); Enabled(t, Tick(now2)) && ContestedTick(t, Tick(now2))
    ensures var u := Exec(Run(Exec(s, Tick(now1)), mid), Tick(now2));
            u.owner.remoteGranted > s.owner.remoteGranted && u.localPaid > s.localPaid
  {
    hide Inv, Legal, Run, Exec, Divide, Allocate;
    var m := Exec(s, Tick(now1));
    var t := Run(m, mid);
    StepPreference(s, Tick(now1));
    PreferenceKept(m, mid);
    RunSpends(m, mid);
    StepPreference(t, Tick(now2));
    BlocksOk(s);
    BlocksOk(t);
    AllocateFrame(s.owner, Block(s.pacer, s.bps, now1));
    ContestedRoundsAlternate(s.owner, Block(s.pacer, s.bps, now1), t.owner, Block(t.pacer, t.bps, now2));
  }

  lemma BlocksOk(s: Sys)
    requires Inv(s)
    ensures OwnerOk(s.owner) && PacerOk(s.pacer, s.bps)
  {
    hide DemandsOrdered, GrantsOrdered, AtHighestDemand, AtHighestGrant, Outstanding;
  }
}
