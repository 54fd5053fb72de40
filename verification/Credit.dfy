/** The two ends of the shared-credit protocol (internal/client/p2p_credit.go): the account of the
    ingress client, which asks for credit and spends it, and the scheduler of the owner, which
    paces credit out.  Each end is given twice: as a value with the effect of every critical
    section as a function on that value, and as a class whose methods update fields in place and
    are proved to have that effect. */
module Credit {
  import opened FairCredit

  const MAX_INT64: nat := 0x7FFF_FFFF_FFFF_FFFF

  datatype Demand = Demand(sequence: nat, total: nat)
  datatype Grant = Grant(sequence: nat, total: nat)

  // ---------- the remote account, as a value ----------

  datatype Remote = Remote(desired: nat, granted: nat, consumed: nat,
                           sequence: nat, grantSequence: nat, closed: bool)

  datatype ReserveStart = Nothing | Refused | Overflow | Demanded(demand: Demand)

  ghost predicate RemoteOk(a: Remote) {
    a.consumed <= a.granted <= a.desired <= MAX_UINT64 && a.sequence <= a.desired
  }

  /** The first critical section of Reserve: raise the cumulative demand. */
  function BeginReserve(a: Remote, bytes: int): (Remote, ReserveStart) {
    if bytes <= 0 then (a, Nothing)
    else if a.closed then (a, Refused)
    else if MAX_UINT64 - a.desired < bytes then (a, Overflow)
    else
      var b := a.(desired := a.desired + bytes, sequence := a.sequence + 1);
      (b, Demanded(Demand(b.sequence, b.desired)))
  }

  /** Whether the waiting loop of Reserve lets this reservation through. */
  predicate CanConsume(a: Remote, bytes: nat) {
    !a.closed && a.granted - a.consumed >= bytes
  }

  function Consume(a: Remote, bytes: nat): Remote {
    a.(consumed := a.consumed + bytes)
  }

  predicate AcceptsGrant(a: Remote, g: Grant) {
    && g.sequence > 0 && g.total > 0
    && a.grantSequence < g.sequence && a.granted <= g.total <= a.desired
  }

  function AfterGrant(a: Remote, g: Grant): Remote {
    if AcceptsGrant(a, g) then a.(grantSequence := g.sequence, granted := g.total) else a
  }

  // ---------- the remote account, in place ----------

  class RemoteCreditAccount {
    const totalBps: int
    var desired: uint64
    var granted: uint64
    var consumed: uint64
    var sequence: uint64
    var grantSequence: uint64
    var closed: bool

    ghost function View(): Remote
      reads this
    {
      Remote(desired, granted, consumed, sequence, grantSequence, closed)
    }

    ghost predicate Valid()
      reads this
    {
      RemoteOk(View())
    }

    constructor (totalBps: int)
      ensures Valid() && View() == Remote(0, 0, 0, 0, 0, false) && this.totalBps == totalBps
    {
      this.totalBps := totalBps;
      desired, granted, consumed, sequence, grantSequence, closed := 0, 0, 0, 0, 0, false;
    }

    /** Reserve up to the point where the lock is dropped for the send.  Both additions stay
        within 64 bits: the sequence never overtakes the demand it numbers. */
    method ReserveBegin(bytes: int) returns (start: ReserveStart)
      requires Valid()
      modifies this
      ensures Valid()
      ensures totalBps == 0 ==> start == Nothing && View() == old(View())
      ensures totalBps != 0 ==> (View(), start) == BeginReserve(old(View()), bytes)
      ensures start.Demanded? <==> bytes > 0 && totalBps != 0 && !old(closed) && old(desired) + bytes <= MAX_UINT64
      ensures start.Demanded? ==>
                && desired == old(desired) + bytes && sequence == old(sequence) + 1
                && start.demand == Demand(sequence, desired)
      ensures start.Nothing? <==> bytes <= 0 || totalBps == 0
      ensures start.Refused? <==> bytes > 0 && totalBps != 0 && old(closed)
    {
      if bytes <= 0 || totalBps == 0 {
        return Nothing;
      }
      if closed {
        return Refused;
      }
      if MAX_UINT64 - desired < bytes {
        return Overflow;
      }
      desired := desired + bytes;
      sequence := sequence + 1;
      return Demanded(Demand(sequence, desired));
    }

    /** One turn of the waiting loop of Reserve and, when it ends, what follows it. */
    method ReserveTry(bytes: nat) returns (ended: bool, ok: bool)
      requires Valid()
      modifies this
      ensures Valid()
      ensures ended == (closed || CanConsume(old(View()), bytes))
      ensures ok == CanConsume(old(View()), bytes)
      ensures View() == if ok then Consume(old(View()), bytes) else old(View())
      ensures ok <==> !closed && old(consumed) + bytes <= granted
      ensures consumed == if ok then old(consumed) + bytes else old(consumed)
    {
      if !closed && granted - consumed < bytes {
        return false, false;
      }
      if closed {
        return true, false;
      }
      consumed := consumed + bytes;
      return true, true;
    }

    method Apply(credit: Grant) returns (ok: bool)
      requires Valid() && credit.sequence <= MAX_UINT64
      modifies this
      ensures Valid()
      ensures ok == AcceptsGrant(old(View()), credit)
      ensures View() == AfterGrant(old(View()), credit)
      ensures ok <==>
                credit.total > 0 && credit.sequence > old(grantSequence) && old(granted) <= credit.total <= desired
      ensures if ok then Grant(grantSequence, granted) == credit
              else Grant(grantSequence, granted) == old(Grant(grantSequence, granted))
    {
      if credit.sequence == 0 || credit.total == 0 {
        return false;
      }
      if credit.sequence <= grantSequence || credit.total < granted || credit.total > desired {
        return false;
      }
      grantSequence, granted := credit.sequence, credit.total;
      return true;
    }

    method Close()
      requires Valid()
      modifies this
      ensures Valid() && View() == old(View()).(closed := true)
    {
      if !closed {
        closed := true;
      }
    }
  }

  // ---------- the owner's scheduler, as a value ----------

  datatype Request = Request(id: nat, remaining: nat)

  datatype Owner = Owner(remoteDesired: nat, remoteGranted: nat,
                         demandSequence: nat, grantSequence: nat,
                         local: seq<Request>, preferRemote: bool, closed: bool)

  function Sum(local: seq<Request>): nat {
    if local == [] then 0 else local[0].remaining + Sum(local[1..])
  }

  ghost predicate OwnerOk(o: Owner) {
    && o.remoteGranted <= o.remoteDesired <= MAX_UINT64
    && forall i :: 0 <= i < |o.local| ==> 0 < o.local[i].remaining
  }

  predicate AcceptsDemand(o: Owner, d: Demand) {
    && d.sequence > 0 && d.total > 0
    && o.demandSequence < d.sequence && o.remoteDesired <= d.total
  }

  function AfterDemand(o: Owner, d: Demand): Owner {
    if AcceptsDemand(o, d) then o.(demandSequence := d.sequence, remoteDesired := d.total) else o
  }

  function AddLocal(o: Owner, id: nat, bytes: int): Owner {
    if bytes <= 0 || o.closed then o else o.(local := o.local + [Request(id, bytes)])
  }

  /** The sum of the queue, held at the 64-bit maximum. */
  function LocalOutstanding(local: seq<Request>): uint64 {
    MinCredit(MAX_UINT64, Sum(local))
  }

  /** The queue after `credit` bytes were paid from its front. */
  function Drain(local: seq<Request>, credit: nat): seq<Request> {
    if credit == 0 || local == [] then local
    else if credit < local[0].remaining then [local[0].(remaining := local[0].remaining - credit)] + local[1..]
    else Drain(local[1..], credit - local[0].remaining)
  }

  datatype Round = Round(remoteGrant: nat, localGrant: nat, contested: bool)

  /** How one block is divided between the remote demand and the local queue. */
  function Divide(o: Owner, available: uint64): Round
    requires OwnerOk(o)
  {
    var remoteOut, localOut := o.remoteDesired - o.remoteGranted, LocalOutstanding(o.local);
    var contested := remoteOut > 0 && localOut > 0;
    if contested && !o.preferRemote then
      var g := FairAllocation(available, localOut, remoteOut);
      Round(g.1, g.0, contested)
    else
      var g := FairAllocation(available, remoteOut, localOut);
      Round(g.0, g.1, contested)
  }

  /** The critical section of allocate. */
  function Allocate(o: Owner, available: uint64): Owner
    requires OwnerOk(o)
  {
    var r := Divide(o, available);
    o.(remoteGranted := o.remoteGranted + r.remoteGrant,
       grantSequence := if r.remoteGrant > 0 then o.grantSequence + 1 else o.grantSequence,
       local := Drain(o.local, r.localGrant),
       preferRemote := if r.contested then !o.preferRemote else o.preferRemote)
  }

  // ---------- pacing ----------

  /** The token bucket that `run` keeps in its local variables; times are in seconds. */
  datatype Pacer = Pacer(tokens: real, last: real)

  function Burst(bps: nat): real {
    if bps as real / 10.0 > 1.0 then bps as real / 10.0 else 1.0
  }

  ghost predicate PacerOk(p: Pacer, bps: nat) {
    0.0 <= p.tokens <= Burst(bps) && bps <= MAX_INT64
  }

  /** Tokens earned in `seconds`. */
  function Earned(bps: nat, seconds: real): (tokens: real)
    ensures seconds >= 0.0 ==> tokens >= 0.0
  {
    bps as real * seconds
  }

  function Refill(p: Pacer, bps: nat, now: real): Pacer {
    var filled := p.tokens + Earned(bps, now - p.last);
    Pacer(if filled < Burst(bps) then filled else Burst(bps), now)
  }

  lemma RefillOk(p: Pacer, bps: nat, now: real)
    requires PacerOk(p, bps) && p.last <= now
    ensures PacerOk(Refill(p, bps, now), bps)
    ensures 0 <= Refill(p, bps, now).tokens.Floor <= MAX_UINT64
  {
  }

  /** The whole tokens a tick can hand out: uint64(tokens) after the refill. */
  function Block(p: Pacer, bps: nat, now: real): uint64
    requires PacerOk(p, bps) && p.last <= now
  {
    RefillOk(p, bps, now);
    Refill(p, bps, now).tokens.Floor
  }

  // ---------- what one allocation does ----------

  lemma SumAppend(a: seq<Request>, b: seq<Request>)
    ensures Sum(a + b) == Sum(a) + Sum(b)
  {
    if a == [] {
      assert a + b == b;
    } else {
      assert (a + b)[1..] == a[1..] + b;
    }
  }

  /** Draining leaves no credit over and no finished request behind. */
  lemma {:induction false} DrainSpendsAll(local: seq<Request>, credit: nat)
    requires forall i :: 0 <= i < |local| ==> 0 < local[i].remaining
    requires credit <= Sum(local)
    ensures Sum(Drain(local, credit)) == Sum(local) - credit
    ensures forall i :: 0 <= i < |Drain(local, credit)| ==> 0 < Drain(local, credit)[i].remaining
    decreases |local|
  {
    if local != [] && local[0].remaining <= credit {
      DrainSpendsAll(local[1..], credit - local[0].remaining);
    }
  }

  /** Draining is strictly first in, first out: with `k` requests finished, exactly the first `k`
      are gone, the next one holds the rest of the credit, and every later one is untouched. */
  lemma {:induction false} DrainIsFifo(local: seq<Request>, credit: nat) returns (k: nat)
    requires credit <= Sum(local)
    requires forall i :: 0 <= i < |local| ==> 0 < local[i].remaining
    ensures k <= |local| && Sum(local[..k]) <= credit
    ensures k == |local| ==> credit == Sum(local) && Drain(local, credit) == []
    ensures k < |local| ==>
              && credit < Sum(local[..k + 1])
              && Drain(local, credit) == [Request(local[k].id, Sum(local[..k + 1]) - credit)] + local[k + 1..]
    decreases |local|
  {
    if local == [] {
      k := 0;
    } else if credit < local[0].remaining {
      k := 0;
      assert local[..1] == [local[0]] && local[..1][1..] == [];
      assert local == [local[0]] + local[1..];
    } else {
      var rest := local[1..];
      var j := DrainIsFifo(rest, credit - local[0].remaining);
      k := j + 1;
      assert local[..k][1..] == rest[..j];
      if k < |local| {
        assert local[..k + 1][1..] == rest[..j + 1];
        assert rest[j + 1..] == local[k + 1..];
      }
    }
  }

  /** Each round pays out exactly what the block and the two capped demands allow, leaves no local
      credit unspent, never grants beyond the demand, and gives each side its half or all it asks. */
  lemma AllocateIsExact(o: Owner, available: uint64)
    requires OwnerOk(o)
    ensures var r := Divide(o, available);
            var o' := Allocate(o, available);
            var remoteOut, localOut := o.remoteDesired - o.remoteGranted, LocalOutstanding(o.local);
            && OwnerOk(o')
            && r.remoteGrant + r.localGrant == MinCredit(available, CapBlock(remoteOut) + CapBlock(localOut))
            && o'.remoteGranted - o.remoteGranted == r.remoteGrant <= remoteOut
            && Sum(o.local) - Sum(o'.local) == r.localGrant
            && r.remoteGrant >= MinCredit(available / 2, CapBlock(remoteOut))
            && r.localGrant >= MinCredit(available / 2, CapBlock(localOut))
  {
    hide FairAllocation, Drain;
    DrainSpendsAll(o.local, Divide(o, available).localGrant);
  }

  /** A round touches neither the demand it answers nor the closing of the scheduler. */
  lemma AllocateFrame(o: Owner, available: uint64)
    requires OwnerOk(o)
    ensures var o', r := Allocate(o, available), Divide(o, available);
            && o'.remoteDesired == o.remoteDesired && o'.demandSequence == o.demandSequence && o'.closed == o.closed
            && o'.grantSequence == o.grantSequence + (if r.remoteGrant > 0 then 1 else 0)
            && o'.preferRemote == if r.contested then !o.preferRemote else o.preferRemote
  {
  }

  /** A tick that spends no more than its block leaves the bucket in range and spends only what
      was in it or was earned since the last tick. */
  lemma SpendOk(p: Pacer, bps: nat, now: real, spent: nat)
    requires PacerOk(p, bps) && p.last <= now && spent <= Block(p, bps, now)
    ensures var q := Refill(p, bps, now);
            var p' := q.(tokens := q.tokens - spent as real);
            PacerOk(p', bps) && p'.tokens + spent as real <= p.tokens + Earned(bps, now - p.last)
  {
    RefillOk(p, bps, now);
  }

  /** Two contested rounds with no contested round between them pay each side at least one byte:
      the preference is given to the remote side in one and to the local side in the other. */
  lemma ContestedRoundsAlternate(o1: Owner, a1: uint64, o2: Owner, a2: uint64)
    requires OwnerOk(o1) && OwnerOk(o2) && a1 > 0 && a2 > 0
    requires Divide(o1, a1).contested && Divide(o2, a2).contested
    requires o2.preferRemote == Allocate(o1, a1).preferRemote
    ensures Divide(o1, a1).remoteGrant + Divide(o2, a2).remoteGrant >= 1
    ensures Divide(o1, a1).localGrant + Divide(o2, a2).localGrant >= 1
  {
  }

  // ---------- the owner's scheduler, in place ----------

  /** `remaining` values of the queue added up with the 64-bit saturation of the source. */
  method SumOutstanding(local: seq<Request>) returns (total: uint64)
    ensures total == LocalOutstanding(local)
  {
    total := 0;
    for i := 0 to |local|
      invariant total == Sum(local[..i]) <= MAX_UINT64
    {
      assert local[..i + 1] == local[..i] + [local[i]];
      SumAppend(local[..i], [local[i]]);
      SumAppend(local[..i + 1], local[i + 1..]);
      assert local == local[..i + 1] + local[i + 1..];
      if MAX_UINT64 - total < local[i].remaining {
        return MAX_UINT64;
      }
      total := total + local[i].remaining;
    }
    assert local[..|local|] == local;
  }

  class OwnerCreditScheduler {
    const totalBps: int
    var remoteDesired: uint64
    var remoteGranted: uint64
    var demandSequence: uint64
    var grantSequence: nat
    var local: seq<Request>
    var preferRemote: bool
    var closed: bool
    var finished: seq<nat>   // ids of the requests whose `done` channel is closed, oldest first

    ghost function View(): Owner
      reads this
    {
      Owner(remoteDesired, remoteGranted, demandSequence, grantSequence, local, preferRemote, closed)
    }

    ghost predicate Valid()
      reads this
    {
      OwnerOk(View())
    }

    constructor (totalBps: int)
      ensures Valid() && View() == Owner(0, 0, 0, 0, [], false, false) && this.totalBps == totalBps && finished == []
    {
      this.totalBps := totalBps;
      remoteDesired, remoteGranted, demandSequence, grantSequence := 0, 0, 0, 0;
      local, preferRemote, closed, finished := [], false, false, [];
    }

    /** Reserve up to the point where it starts to wait. */
    method ReserveBegin(id: nat, bytes: int) returns (queued: bool)
      requires Valid()
      modifies this
      ensures Valid() && finished == old(finished)
      ensures queued == (bytes > 0 && totalBps != 0 && !old(closed))
      ensures View() == if totalBps == 0 then old(View()) else AddLocal(old(View()), id, bytes)
      ensures local == if queued then old(local) + [Request(id, bytes)] else old(local)
    {
      if bytes <= 0 || totalBps == 0 {
        return false;
      }
      if closed {
        return false;
      }
      local := local + [Request(id, bytes)];
      return true;
    }

    method ApplyDemand(demand: Demand) returns (ok: bool)
      requires Valid() && demand.sequence <= MAX_UINT64 && demand.total <= MAX_UINT64
      modifies this
      ensures Valid() && finished == old(finished)
      ensures ok == AcceptsDemand(old(View()), demand)
      ensures View() == AfterDemand(old(View()), demand)
      ensures ok <==> demand.total > 0 && demand.sequence > old(demandSequence) && demand.total >= old(remoteDesired)
      ensures if ok then Demand(demandSequence, remoteDesired) == demand
              else Demand(demandSequence, remoteDesired) == old(Demand(demandSequence, remoteDesired))
    {
      if demand.sequence == 0 || demand.total == 0 {
        return false;
      }
      if demand.sequence <= demandSequence || demand.total < remoteDesired {
        return false;
      }
      demandSequence, remoteDesired := demand.sequence, demand.total;
      return true;
    }

    /** The draining loop of allocate: the ids it finishes are those at the front of the queue. */
    method DrainQueue(credit: nat)
      requires Valid()
      modifies this`local, this`finished
      ensures Valid() && local == Drain(old(local), credit)
      ensures |local| <= |old(local)| && finished == old(finished) + Ids(old(local)[..|old(local)| - |local|])
    {
      hide Drain, Ids;
      DrainNothing(local);
      NoIds();
      var left := credit;
      ghost var k := 0;
      assert local[..0] == [];
      while left > 0 && |local| > 0
        invariant 0 <= k <= |old(local)| && |local| == |old(local)| - k
        invariant finished == old(finished) + Ids(old(local)[..k])
        invariant |local| > 0 ==> local[0].id == old(local)[k].id && local[1..] == old(local)[k + 1..]
        invariant forall i :: 0 <= i < |local| ==> 0 < local[i].remaining
        invariant Drain(local, left) == Drain(old(local), credit)
        decreases |local|, left
      {
        var req := local[0];
        var amount := MinCredit(left, req.remaining);
        DrainOne(local, left);
        left := left - amount;
        if req.remaining == amount {
          finished := finished + [req.id];
          IdsSnoc(old(local), k);
          local := local[1..];
          k := k + 1;
        } else {
          local := [req.(remaining := req.remaining - amount)] + local[1..];
        }
      }
      DrainNothing(local);
    }

    /** The split of allocate, with the turn of the preference. */
    method DivideBlock(available: uint64) returns (remoteGrant: nat, localGrant: nat)
      requires Valid()
      modifies this`preferRemote
      ensures var r := Divide(old(View()), available);
              && remoteGrant == r.remoteGrant && localGrant == r.localGrant
              && preferRemote == if r.contested then !old(preferRemote) else old(preferRemote)
      ensures var remoteOut, localOut := remoteDesired - remoteGranted, MinCredit(MAX_UINT64, Sum(local));
              if remoteOut > 0 && localOut > 0 && !old(preferRemote)
              then IsFairSplit(available, localOut, remoteOut, localGrant, remoteGrant)
              else IsFairSplit(available, remoteOut, localOut, remoteGrant, localGrant)
    {
      hide FairAllocation, IsFairSplit, Sum;
      var remoteOutstanding := remoteDesired - remoteGranted;
      var localOutstanding := SumOutstanding(local);
      var grants := FairAllocation(available, remoteOutstanding, localOutstanding);
      remoteGrant, localGrant := grants.0, grants.1;
      if remoteOutstanding > 0 && localOutstanding > 0 {
        if !preferRemote {
          grants := FairAllocation(available, localOutstanding, remoteOutstanding);
          localGrant, remoteGrant := grants.0, grants.1;
        }
        preferRemote := !preferRemote;
      }
    }

    /** allocate up to the send. */
    method AllocateLocked(available: uint64) returns (remoteGrant: nat, localGrant: nat)
      requires Valid()
      modifies this
      ensures Valid()
      ensures View() == Allocate(old(View()), available)
      ensures var r := Divide(old(View()), available); remoteGrant == r.remoteGrant && localGrant == r.localGrant
      ensures |local| <= |old(local)| && finished == old(finished) + Ids(old(local)[..|old(local)| - |local|])
    {
      hide Divide, Sum, Drain, CapBlock, MinCredit;
      AllocateIsExact(View(), available);
      remoteGrant, localGrant := DivideBlock(available);
      remoteGranted := remoteGranted + remoteGrant;
      DrainQueue(localGrant);
      if remoteGrant > 0 {
        grantSequence := grantSequence + 1;
      }
    }

    /** One turn of the loop of `run` for a tick stamped `now`: refill, allocate, and take back the
        remote part when the send fails.  The tokens spent on it are not taken back. */
    method RunTick(p: Pacer, now: real, sendOk: bool) returns (p': Pacer)
      requires Valid() && totalBps >= 0 && PacerOk(p, totalBps) && p.last <= now
      modifies this
      ensures Valid() && PacerOk(p', totalBps)
      ensures var q, available := Refill(p, totalBps, now), Block(p, totalBps, now);
              var r, o := Divide(old(View()), available), Allocate(old(View()), available);
              && p' == q.(tokens := q.tokens - (r.remoteGrant + r.localGrant) as real)
              && View() == if available == 0 then old(View())
                           else if sendOk then o else o.(remoteGranted := old(remoteGranted))
    {
      hide Divide, Allocate, Sum, FairAllocation, IsFairSplit, Drain, CapBlock;
      p' := Refill(p, totalBps, now);
      RefillOk(p, totalBps, now);
      var available: uint64 := p'.tokens.Floor;
      AllocateIsExact(View(), available);
      if available == 0 {
        return;
      }
      var remoteGrant, localGrant := AllocateLocked(available);
      if remoteGrant > 0 && !sendOk {
        Rollback(remoteGrant);
      }
      p' := p'.(tokens := p'.tokens - (remoteGrant + localGrant) as real);
    }

    /** The rollback after a send that failed. */
    method Rollback(remoteGrant: nat)
      requires Valid() && remoteGrant <= remoteGranted
      modifies this`remoteGranted
      ensures Valid() && View() == old(View()).(remoteGranted := old(remoteGranted) - remoteGrant)
    {
      remoteGranted := remoteGranted - remoteGrant;
    }
  }

  lemma DrainOne(local: seq<Request>, credit: nat)
    requires credit > 0 && local != []
    ensures var first, rest := local[0], local[1..];
            var amount := MinCredit(credit, first.remaining);
            Drain(local, credit) == if first.remaining == amount then Drain(rest, credit - amount)
                                    else Drain([first.(remaining := first.remaining - amount)] + rest, credit - amount)
  {
  }

  lemma DrainNothing(local: seq<Request>)
    ensures Drain(local, 0) == local
    ensures forall credit: nat :: Drain([], credit) == []
  {
  }

  lemma NoIds()
    ensures Ids([]) == []
  {
  }

  ghost function Ids(local: seq<Request>): seq<nat> {
    seq(|local|, i requires 0 <= i < |local| => local[i].id)
  }

  lemma IdsSnoc(local: seq<Request>, k: nat)
    requires k < |local|
    ensures Ids(local[..k + 1]) == Ids(local[..k]) + [local[k].id]
  {
  }
}
