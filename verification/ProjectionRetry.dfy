/** The queue of P2P projection retries (internal/server/p2p_projection.go), its worker, and the
    per-user lifecycle gate that disabling a user goes through
    (internal/server/user_lifecycle_gate.go).  The worker works on copies it took from the queue, so
    a user may be disabled while a copy of theirs is on its way to the store. */
module ProjectionRetry {
  import opened Durations

  const CAPACITY: nat := 256
  /** A captured projection; `tunnels` are those of its session's grants, `payload` stands for what
      would be written. */
  datatype Item = Item(owner: string, epoch: nat, inFlight: bool, payload: nat, tunnels: set<string>, attempts: int,
      next: int)

  type Queue = map<string, Item>

  function Delay(attempt: int): int {
    var a := if attempt < 1 then 1 else attempt;
    var shift := if a - 1 < 5 then a - 1 else 5;
    var delay := SECOND * [1, 2, 4, 8, 16, 32][shift];
    if delay > 30 * SECOND then 30 * SECOND else delay
  }

  predicate Enqueueable(q: Queue, key: string, item: Item) {
    && key != "" && item.owner != "" && item.epoch != 0
    && (key !in q ==> |q| < CAPACITY)
    && (key in q ==> q[key].owner == item.owner && q[key].epoch <= item.epoch)
  }

  /** The entry that enqueueing leaves: within one epoch it keeps the larger number of attempts. */
  function Entry(q: Queue, key: string, item: Item, now: int): Item {
    var longer := key in q && q[key].epoch == item.epoch && q[key].attempts > item.attempts;
    var attempts := if longer then q[key].attempts else item.attempts;
    item.(inFlight := false, attempts := attempts, next := now + Delay(attempts))
  }

  function Enqueued(q: Queue, key: string, item: Item, now: int): Queue {
    if Enqueueable(q, key, item) then q[key := Entry(q, key, item, now)] else q
  }

  predicate Due(item: Item, now: int) {
    !item.inFlight && item.next <= now
  }

  function Marked(q: Queue, now: int): Queue {
    map k | k in q :: Mark(q[k], now)
  }

  function DueItems(q: Queue, now: int): Queue {
    map k | k in q && Due(q[k], now) :: q[k].(inFlight := true)
  }

  function Removed(q: Queue, key: string, item: Item): Queue {
    if key in q && q[key].owner == item.owner && q[key].epoch == item.epoch then q - {key} else q
  }

  predicate OwnedBy(item: Item, user: string, tunnels: set<string>) {
    (user != "" && item.owner == user) || exists t :: t in item.tunnels && t in tunnels
  }

  function Cancelled(q: Queue, user: string, tunnels: set<string>): Queue {
    map k | k in q && !OwnedBy(q[k], user, tunnels) :: q[k]
  }

  // ---------- the queue, in place ----------

  lemma DropOne(q: Queue, key: string)
    requires key in q
    ensures |q - {key}| == |q| - 1
  {
    assert (q - {key}).Keys == q.Keys - {key};
  }

  /** An entry after the locked pass of the worker. */
  function Mark(item: Item, now: int): Item {
    if Due(item, now) then item.(inFlight := true) else item
  }

  class RetryQueue {
    var retries: Queue

    constructor ()
      ensures retries == map[]
    {
      retries := map[];
    }

    method Enqueue(key: string, item: Item, now: int) returns (ok: bool)
      modifies this
      ensures ok == Enqueueable(old(retries), key, item)
      ensures retries == Enqueued(old(retries), key, item, now)
    {
      if key == "" || item.owner == "" || item.epoch == 0 {
        return false;
      }
      if key !in retries && |retries| >= CAPACITY {
        return false;
      }
      var entry := item;
      if key in retries {
        var existing := retries[key];
        if existing.owner != item.owner || existing.epoch > item.epoch {
          return false;
        }
        if existing.epoch == item.epoch && existing.attempts > item.attempts {
          entry := entry.(attempts := existing.attempts);
        }
      }
      entry := entry.(inFlight := false, next := now + Delay(entry.attempts));
      retries := retries[key := entry];
      return true;
    }

    /** The locked part of retryDueP2PProjections; the map is visited in any order. */
    method TakeDue(now: int) returns (due: Queue)
      modifies this
      ensures retries == Marked(old(retries), now) && due == DueItems(old(retries), now)
    {
      hide Due;
      due := map[];
      var todo := retries.Keys;
      while todo != {}
        invariant todo <= old(retries).Keys == retries.Keys
        invariant forall k :: k in retries ==>
                  retries[k] == if k in todo then old(retries)[k] else Mark(old(retries)[k], now)
        invariant forall k :: k in due <==> k in retries && k !in todo && Due(old(retries)[k], now)
        invariant forall k :: k in due ==> due[k] == old(retries)[k].(inFlight := true)
        decreases |todo|
      {
        var key :| key in todo;
        var item := retries[key];
        if Due(item, now) {
          item := item.(inFlight := true);
          retries := retries[key := item];
          due := due[key := item];
        }
        todo := todo - {key};
      }
    }

    method Remove(key: string, item: Item)
      modifies this
      ensures retries == Removed(old(retries), key, item)
    {
      if key in retries && retries[key].owner == item.owner && retries[key].epoch == item.epoch {
        retries := retries - {key};
      }
    }

    /** cancelOwnedP2PProjectionRetries: the counts are those of the entries removed. */
    method Cancel(user: string, tunnels: set<string>) returns (queued: nat, inFlight: nat)
      modifies this
      ensures retries == Cancelled(old(retries), user, tunnels)
      ensures queued + inFlight == |old(retries)| - |retries|
      ensures inFlight == |set k | k in old(retries) && old(retries)[k].inFlight &&
                OwnedBy(old(retries)[k], user, tunnels)|
    {
      hide OwnedBy;
      queued, inFlight := 0, 0;
      var todo := retries.Keys;
      ghost var counted: set<string> := {};
      while todo != {}
        invariant todo <= old(retries).Keys && todo <= retries.Keys <= old(retries).Keys
        invariant forall k :: k in retries ==> retries[k] == old(retries)[k]
        invariant forall k :: k in old(retries) ==>
                  (k in retries <==> k in todo || !OwnedBy(old(retries)[k], user, tunnels))
        invariant queued + inFlight == |old(retries)| - |retries| && inFlight == |counted|
        invariant counted == set k | k in old(retries) && k !in todo && old(retries)[k].inFlight &&
                  OwnedBy(old(retries)[k], user, tunnels)
        decreases |todo|
      {
        var key :| key in todo;
        var item := retries[key];
        todo := todo - {key};
        if OwnedBy(item, user, tunnels) {
          if item.inFlight {
            inFlight := inFlight + 1;
            counted := counted + {key};
          } else {
            queued := queued + 1;
          }
          DropOne(retries, key);
          retries := retries - {key};
        }
      }
      assert counted == set k | k in old(retries) && old(retries)[k].inFlight &&
          OwnedBy(old(retries)[k], user, tunnels);
    }
  }

  // ---------- queue, worker and lifecycle together ----------

  /** A lifecycle gate: its epoch, and whether its write lock is held. */
  datatype Gate = Gate(epoch: nat, locked: bool)

  datatype Worker =
    | Resting
    | Wanting(key: string, item: Item)                    // about to take the read gate
    | Holding(key: string, item: Item)                    // holds it, has not written yet
    | Wrote(key: string, item: Item, failed: bool)        // still holds it
    | WantingAgain(key: string, item: Item)               // about to take it for requeueing
    | Requeueing(key: string, item: Item)                 // holds it again
    | Requeued(key: string, item: Item, accepted: bool)   // still holds it
    | Finishing(key: string, item: Item)                  // holds nothing, removes the entry next

  /** A write that reached the store, with the owner's epoch and standing at that moment. */
  datatype Write = Write(key: string, item: Item, epoch: nat, active: bool)

  datatype State = State(queue: Queue, due: Queue, worker: Worker, gates: map<string, Gate>, active: set<string>,
      writes: seq<Write>)

  datatype Outcome = NotCurrent | StoreError | Applied

  datatype Step =
    | External(key: string, item: Item, now: int)
    | Dequeue(now: int)
    | Pick(key: string)
    | TakeGate
    | Apply(outcome: Outcome)
    | Release
    | Requeue(now: int)
    | Forget
    | LockGate(user: string)
    | SetActive(user: string, on: bool)
    | Bump(user: string)
    | CancelRetries(user: string, tunnels: set<string>)
    | UnlockGate(user: string)

  function GateOf(s: State, user: string): Gate {
    if user in s.gates then s.gates[user] else Gate(1, false)
  }

  /** The user whose read gate the worker holds, if any. */
  predicate Reads(w: Worker, user: string) {
    (w.Holding? || w.Wrote? || w.Requeueing? || w.Requeued?) && w.item.owner == user
  }

  /** acquireUserLifecycleRead succeeds: the captured epoch is current and the owner is operational. */
  predicate GateOpens(s: State, item: Item) {
    GateOf(s, item.owner).epoch == item.epoch && item.owner in s.active
  }

  ghost predicate Enabled(s: State, step: Step) {
    match step
    case External(_, _, _) => true
    case Dequeue(_) => s.worker.Resting? && s.due == map[]
    case Pick(key) => s.worker.Resting? && key in s.due
    case TakeGate => (s.worker.Wanting? || s.worker.WantingAgain?) && !GateOf(s, s.worker.item.owner).locked
    case Apply(_) => s.worker.Holding?
    case Release => s.worker.Wrote? || s.worker.Requeued?
    case Requeue(_) => s.worker.Requeueing?
    case Forget => s.worker.Finishing?
    case LockGate(u) => !GateOf(s, u).locked && !Reads(s.worker, u)
    case SetActive(u, _) => GateOf(s, u).locked
    case Bump(u) => GateOf(s, u).locked
    case CancelRetries(u, _) => GateOf(s, u).locked
    case UnlockGate(u) => GateOf(s, u).locked
  }

  function Exec(s: State, step: Step): State
    requires Enabled(s, step)
  {
    var w := s.worker;
    match step
    case External(key, item, now) => s.(queue := Enqueued(s.queue, key, item, now))
    case Dequeue(now) => s.(queue := Marked(s.queue, now), due := DueItems(s.queue, now))
    case Pick(key) =>
      s.(due := s.due - {key}, worker := Wanting(key, s.due[key].(attempts := s.due[key].attempts + 1)))
    case TakeGate =>
      if GateOpens(s, w.item)
          then s.(worker := if w.Wanting? then Holding(w.key, w.item) else Requeueing(w.key, w.item))
      else s.(worker := Finishing(w.key, w.item))
    case Apply(outcome) =>
      var t := s.(worker := Wrote(w.key, w.item, outcome == StoreError));
      if outcome == Applied
          then t.(writes := s.writes +
              [Write(w.key, w.item, GateOf(s, w.item.owner).epoch, w.item.owner in s.active)]) else t
    case Release =>
      s.(worker := if w.Wrote? then (if w.failed then WantingAgain(w.key, w.item) else Finishing(w.key, w.item))
                   else if w.accepted then Resting else Finishing(w.key, w.item))
    case Requeue(now) =>
      s.(queue := Enqueued(s.queue, w.key, w.item, now),
          worker := Requeued(w.key, w.item, Enqueueable(s.queue, w.key, w.item)))
    case Forget => s.(queue := Removed(s.queue, w.key, w.item), worker := Resting)
    case LockGate(u) => s.(gates := s.gates[u := GateOf(s, u).(locked := true)])
    case SetActive(u, on) => s.(active := if on then s.active + {u} else s.active - {u})
    case Bump(u) => s.(gates := s.gates[u := GateOf(s, u).(epoch := GateOf(s, u).epoch + 1)])
    case CancelRetries(u, tunnels) => s.(queue := Cancelled(s.queue, u, tunnels))
    case UnlockGate(u) => s.(gates := s.gates[u := GateOf(s, u).(locked := false)])
  }

  /** While the worker holds a read gate, the epoch it checked stays current, its owner stays
      operational and no lifecycle change of that owner is under way. */
  ghost predicate GateInv(s: State) {
    (s.worker.Holding? || s.worker.Wrote? || s.worker.Requeueing? || s.worker.Requeued?) ==>
      GateOpens(s, s.worker.item) && !GateOf(s, s.worker.item.owner).locked
  }

  /** The worker has taken what it is busy with out of its batch. */
  ghost predicate SingleCopy(s: State) {
    !s.worker.Resting? ==> s.worker.key !in s.due
  }

  ghost predicate Inv(s: State) {
    && GateInv(s) && SingleCopy(s)
    && |s.queue| <= CAPACITY
    && forall i :: 0 <= i < |s.writes| ==> s.writes[i].epoch == s.writes[i].item.epoch && s.writes[i].active
  }

  lemma EnqueuedSize(q: Queue, key: string, item: Item, now: int)
    requires |q| <= CAPACITY
    ensures |Enqueued(q, key, item, now)| <= CAPACITY
  {
    hide Entry;
    var entry := Entry(q, key, item, now);
    assert q[key := entry].Keys == q.Keys + {key};
    assert key in q ==> q.Keys + {key} == q.Keys;
  }

  lemma QueueSizes(q: Queue, key: string, item: Item, now: int, user: string, tunnels: set<string>)
    requires |q| <= CAPACITY
    ensures |Enqueued(q, key, item, now)| <= CAPACITY
    ensures |Marked(q, now)| <= CAPACITY
    ensures |Removed(q, key, item)| <= CAPACITY
    ensures |Cancelled(q, user, tunnels)| <= CAPACITY
  {
    hide Due, OwnedBy, Enqueued;
    EnqueuedSize(q, key, item, now);
    assert Marked(q, now).Keys == q.Keys;
    assert (q - {key}).Keys == q.Keys - {key};
    assert Cancelled(q, user, tunnels).Keys <= q.Keys;
    SubsetSize(Cancelled(q, user, tunnels).Keys, q.Keys);
    SubsetSize(q.Keys - {key}, q.Keys);
  }

  lemma SubsetSize(a: set<string>, b: set<string>)
    requires a <= b
    ensures |a| <= |b|
  {
    assert b == a + (b - a);
  }

  lemma ExecKeepsSize(s: State, step: Step)
    requires |s.queue| <= CAPACITY && Enabled(s, step)
    ensures |Exec(s, step).queue| <= CAPACITY
  {
    hide Enqueued, Marked, Removed, Cancelled, DueItems, Enqueueable, GateOf, GateOpens, Reads;
    match step
    case External(key, item, now) => QueueSizes(s.queue, key, item, now, "", {});
    case Dequeue(now) => QueueSizes(s.queue, "", Item("", 0, false, 0, {}, 0, 0), now, "", {});
    case Requeue(now) => QueueSizes(s.queue, s.worker.key, s.worker.item, now, "", {});
    case Forget => QueueSizes(s.queue, s.worker.key, s.worker.item, 0, "", {});
    case CancelRetries(u, tunnels) => QueueSizes(s.queue, "", Item("", 0, false, 0, {}, 0, 0), 0, u, tunnels);
    case _ =>
  }

  lemma ExecKeepsGate(s: State, step: Step)
    requires GateInv(s) && Enabled(s, step)
    ensures GateInv(Exec(s, step))
  {
    hide Enqueued, Marked, Removed, Cancelled, DueItems, Enqueueable;
  }

  lemma ExecKeepsSingleCopy(s: State, step: Step)
    requires SingleCopy(s) && Enabled(s, step)
    ensures SingleCopy(Exec(s, step))
  {
    hide Enqueued, Marked, Removed, Cancelled, DueItems, Enqueueable, GateOf, GateOpens;
  }

  lemma ExecWrites(s: State, step: Step)
    requires GateInv(s) && Enabled(s, step)
    ensures var t := Exec(s, step);
      t.writes == s.writes || (exists w: Write :: t.writes == s.writes + [w] && w.epoch == w.item.epoch && w.active)
  {
    hide Enqueued, Marked, Removed, Cancelled, DueItems, Enqueueable;
  }

  lemma ExecKeepsInv(s: State, step: Step)
    requires Inv(s) && Enabled(s, step)
    ensures Inv(Exec(s, step))
  {
    hide Enqueued, Marked, Removed, Cancelled, DueItems, Enqueueable, Exec, GateInv, Enabled, SingleCopy;
    ExecKeepsSize(s, step);
    ExecKeepsSingleCopy(s, step);
    ExecKeepsGate(s, step);
    ExecWrites(s, step);
  }

  // ---------- runs ----------

  ghost predicate Legal(s: State, steps: seq<Step>)
    decreases |steps|
  {
    steps == [] || (Enabled(s, steps[0]) && Legal(Exec(s, steps[0]), steps[1..]))
  }

  ghost function Run(s: State, steps: seq<Step>): State
    requires Legal(s, steps)
    decreases |steps|
  {
    if steps == [] then s else Run(Exec(s, steps[0]), steps[1..])
  }

  function Fresh(active: set<string>): State {
    State(map[], map[], Resting, map[], active, [])
  }

  /** Over every interleaving: each write was made in the epoch its projection was captured in, for an
      operational owner, and the queue never outgrows its capacity. */
  lemma {:induction false} NeverWritesStale(s: State, steps: seq<Step>)
    requires Inv(s) && Legal(s, steps)
    ensures var t := Run(s, steps);
            && Inv(t)
            && |t.queue| <= CAPACITY
            && (forall i :: 0 <= i < |t.writes| ==> t.writes[i].epoch == t.writes[i].item.epoch && t.writes[i].active)
    decreases |steps|
  {
    hide Exec, Enabled, Inv;
    if steps != [] {
      ExecKeepsInv(s, steps[0]);
      NeverWritesStale(Exec(s, steps[0]), steps[1..]);
    } else {
      InvSays(s);
    }
  }

  lemma InvSays(s: State)
    requires Inv(s)
    ensures |s.queue| <= CAPACITY
    ensures forall i :: 0 <= i < |s.writes| ==> s.writes[i].epoch == s.writes[i].item.epoch && s.writes[i].active
  {
  }

  lemma FreshInv(active: set<string>)
    ensures Inv(Fresh(active))
  {
  }

  lemma {:induction false} StepGrows(s: State, step: Step, user: string)
    requires Enabled(s, step)
    ensures var t := Exec(s, step);
            && GateOf(s, user).epoch <= GateOf(t, user).epoch
            && s.writes <= t.writes && |t.writes| <= |s.writes| + 1
            && (forall i :: |s.writes| <= i < |t.writes| ==>
                t.writes[i].epoch == GateOf(s, t.writes[i].item.owner).epoch)
  {
    hide Enqueued, Marked, Removed, Cancelled, DueItems, Enqueueable;
  }

  /** Once an owner's epoch has moved past the one a retry was captured in, that retry is never written,
      even if the worker had already dequeued it or was about to requeue it. */
  lemma {:induction false} SupersededEpochIsNeverWritten(s: State, steps: seq<Step>, user: string, epoch: nat)
    requires Inv(s) && Legal(s, steps) && epoch < GateOf(s, user).epoch
    ensures var t := Run(s, steps);
            && s.writes <= t.writes
            && forall i :: |s.writes| <= i < |t.writes| && t.writes[i].item.owner == user ==>
                t.writes[i].item.epoch != epoch
    decreases |steps|
  {
    hide Exec, Enabled, Inv, GateOf;
    if steps != [] {
      var m := Exec(s, steps[0]);
      StepGrows(s, steps[0], user);
      ExecKeepsInv(s, steps[0]);
      InvSays(m);
      SupersededEpochIsNeverWritten(m, steps[1..], user, epoch);
    }
  }

  /** An entry that stays is never replaced by one of another owner, of an older epoch, or of the same epoch
      with fewer attempts. */
  lemma {:induction false} EntriesOnlyAdvance(s: State, step: Step, key: string)
    requires Enabled(s, step) && key in s.queue && key in Exec(s, step).queue
    ensures var a, b := s.queue[key], Exec(s, step).queue[key];
            a.owner == b.owner && a.epoch <= b.epoch && (a.epoch == b.epoch ==> a.attempts <= b.attempts)
  {
  }

  ghost predicate Stays(s: State, steps: seq<Step>, key: string)
    requires Legal(s, steps)
    decreases |steps|
  {
    key in s.queue && (steps != [] ==> Stays(Exec(s, steps[0]), steps[1..], key))
  }

  lemma {:induction false} EntriesOnlyAdvanceOverRuns(s: State, steps: seq<Step>, key: string)
    requires Legal(s, steps) && Stays(s, steps, key)
    ensures var t := Run(s, steps);
            && key in t.queue && t.queue[key].owner == s.queue[key].owner
            && s.queue[key].epoch <= t.queue[key].epoch
            && (s.queue[key].epoch == t.queue[key].epoch ==> s.queue[key].attempts <= t.queue[key].attempts)
    decreases |steps|
  {
    hide Exec, Enabled;
    if steps != [] {
      EntriesOnlyAdvanceOverRuns(Exec(s, steps[0]), steps[1..], key);
      EntriesOnlyAdvance(s, steps[0], key);
    }
  }

  // ---------- a newer projection queued while the worker holds an older one ----------

  predicate BusyWith(w: Worker, key: string) {
    !w.Resting? && w.key == key
  }

  /** The worker holds a copy of an entry of this key: in its batch, or on its way. */
  predicate HoldsCopy(s: State, key: string) {
    key in s.due || BusyWith(s.worker, key)
  }

  /** That copy, as it will be or is on its way. */
  function CopyOf(s: State, key: string): Item
    requires HoldsCopy(s, key)
  {
    if key in s.due then s.due[key].(attempts := s.due[key].attempts + 1) else s.worker.item
  }

  /** The worker has put its copy back and is about to leave it. */
  predicate PutBack(w: Worker) {
    w.Requeued? && w.accepted
  }

  /** The worker has yet to remove or requeue the entry of its key. */
  predicate WillTouch(w: Worker, key: string, item: Item) {
    BusyWith(w, key) && w.item == item && !PutBack(w)
  }

  /** With the last of these steps, and not before, the worker holds no copy of this key any more. */
  ghost predicate UntilDone(s: State, steps: seq<Step>, key: string)
    requires Legal(s, steps)
    decreases |steps|
  {
    if !HoldsCopy(s, key) then steps == [] else steps != [] && UntilDone(Exec(s, steps[0]), steps[1..], key)
  }

  /** Nobody else queues this key or cancels retries meanwhile. */
  predicate LeaveAlone(steps: seq<Step>, key: string) {
    forall i :: 0 <= i < |steps| ==> LeavesAlone(steps[i], key)
  }

  predicate LeavesAlone(step: Step, key: string) {
    !step.CancelRetries? && (step.External? ==> step.key != key)
  }

  /** The worker requeues its copy of this key on the way. */
  ghost predicate Requeues(s: State, steps: seq<Step>, key: string)
    requires Legal(s, steps)
    decreases |steps|
  {
    steps != [] && ((steps[0].Requeue? && BusyWith(s.worker, key)) || Requeues(Exec(s, steps[0]), steps[1..], key))
  }

  predicate Queued(q: Queue, key: string, entry: Item) {
    key in q && q[key] == entry
  }

  /** The entry is the worker's own item again. */
  predicate Overwritten(q: Queue, key: string, item: Item) {
    key in q && q[key].owner == item.owner && q[key].epoch == item.epoch && q[key].payload == item.payload
  }

  /** Whatever was written for this key in between was this item. */
  ghost predicate OnlyWrote(before: seq<Write>, after: seq<Write>, key: string, item: Item) {
    before <= after && forall i :: |before| <= i < |after| && after[i].key == key ==> after[i].item == item
  }

  lemma OnlyWroteTwice(a: seq<Write>, b: seq<Write>, c: seq<Write>, key: string, item: Item)
    requires OnlyWrote(a, b, key, item) && OnlyWrote(b, c, key, item)
    ensures OnlyWrote(a, c, key, item)
  {
  }

  /** One step of a worker that is busy with this key, or of others who leave the key alone. */
  lemma {:induction false} BusyStep(s: State, step: Step, key: string, item: Item, entry: Item)
    requires Enabled(s, step) && SingleCopy(s) && WillTouch(s.worker, key, item) && Queued(s.queue, key, entry)
    requires LeavesAlone(step, key)
    requires entry.owner == item.owner && key != "" && item.owner != "" && entry.epoch != 0
    ensures var t := Exec(s, step);
            && key !in t.due
            && if step.Forget? then t.worker.Resting? && (Queued(t.queue, key, entry) <==> entry.epoch != item.epoch)
                                    && (entry.epoch == item.epoch ==> key !in t.queue)
               else if step.Requeue? && entry.epoch <= item.epoch then
                 t.worker == Requeued(key, item, true) && Overwritten(t.queue, key, item)
               else WillTouch(t.worker, key, item) && Queued(t.queue, key, entry)
    ensures OnlyWrote(s.writes, Exec(s, step).writes, key, item)
  {
    hide Marked, DueItems, Cancelled, GateOf, GateOpens, Delay;
  }

  /** A worker that has put its copy back does not touch the entry again, whatever it is. */
  lemma {:induction false} PutBackStep(s: State, step: Step, key: string, entry: Item)
    requires Enabled(s, step) && LeavesAlone(step, key) && key !in s.due
    requires BusyWith(s.worker, key) && PutBack(s.worker) && Queued(s.queue, key, entry)
    ensures var t := Exec(s, step);
            && Queued(t.queue, key, entry) && t.writes == s.writes && key !in t.due
            && (t.worker == s.worker || t.worker.Resting?) && !(step.Requeue?)
  {
    hide Marked, DueItems, Cancelled, GateOf, GateOpens, Delay;
  }

  lemma {:induction false} PutBackUntilDone(s: State, steps: seq<Step>, key: string, entry: Item)
    requires Legal(s, steps) && UntilDone(s, steps, key) && LeaveAlone(steps, key) && key !in s.due
    requires BusyWith(s.worker, key) && PutBack(s.worker) && Queued(s.queue, key, entry)
    ensures Queued(Run(s, steps).queue, key, entry) && Run(s, steps).writes == s.writes && !Requeues(s, steps, key)
    decreases |steps|
  {
    hide Exec, Enabled, Queued;
    PutBackStep(s, steps[0], key, entry);
    var t := Exec(s, steps[0]);
    if t.worker.Resting? {
      assert steps[1..] == [];
    } else {
      PutBackUntilDone(t, steps[1..], key, entry);
    }
  }

  /** While the copy waits in the batch nobody touches it or the entry; then the worker picks it. */
  lemma {:induction false} BatchStep(s: State, step: Step, key: string, entry: Item)
    requires Enabled(s, step) && SingleCopy(s) && key in s.due && LeavesAlone(step, key) && Queued(s.queue, key, entry)
    ensures var t := Exec(s, step);
            && Queued(t.queue, key, entry)
            && if step == Pick(key) then t.worker == Wanting(key, CopyOf(s, key)) && key !in t.due
               else key in t.due && CopyOf(t, key) == CopyOf(s, key)
    ensures OnlyWrote(s.writes, Exec(s, step).writes, key, CopyOf(s, key))
  {
    hide Marked, DueItems, Cancelled, GateOf, GateOpens, Delay;
  }

  /** What becomes of the entry in the end. */
  ghost predicate Fate(q: Queue, key: string, item: Item, entry: Item, requeued: bool) {
    && (Queued(q, key, entry) <==> entry.epoch > item.epoch || (entry.epoch < item.epoch && !requeued))
    && (entry.epoch == item.epoch ==> if requeued then Overwritten(q, key, item) else key !in q)
  }

  lemma {:induction false} EntryUntilDone(s: State, steps: seq<Step>, key: string, item: Item, entry: Item)
    requires Legal(s, steps) && UntilDone(s, steps, key) && LeaveAlone(steps, key) && SingleCopy(s)
    requires HoldsCopy(s, key) && CopyOf(s, key) == item && (key in s.due || WillTouch(s.worker, key, item))
    requires Queued(s.queue, key, entry)
    requires entry.owner == item.owner && key != "" && item.owner != "" && entry.epoch != 0
    requires entry.payload != item.payload
    ensures Fate(Run(s, steps).queue, key, item, entry, Requeues(s, steps, key))
    ensures OnlyWrote(s.writes, Run(s, steps).writes, key, item)
    decreases |steps|
  {
    hide Exec, Enabled, OnlyWrote;
    var step, t, rest := steps[0], Exec(s, steps[0]), steps[1..];
    ExecKeepsSingleCopy(s, step);
    if key in s.due {
      BatchStep(s, step, key, entry);
      EntryUntilDone(t, rest, key, item, entry);
    } else {
      BusyStep(s, step, key, item, entry);
      if step.Forget? {
        assert rest == [];
        WroteNothing(t.writes, key, item);
      } else if step.Requeue? && entry.epoch <= item.epoch {
        PutBackUntilDone(t, rest, key, t.queue[key]);
        WroteNothing(t.writes, key, item);
      } else {
        EntryUntilDone(t, rest, key, item, entry);
      }
    }
    OnlyWroteTwice(s.writes, t.writes, Run(t, rest).writes, key, item);
  }

  lemma WroteNothing(writes: seq<Write>, key: string, item: Item)
    ensures OnlyWrote(writes, writes, key, item)
  {
  }

  /** A projection is queued while the worker holds a copy of an older one of the same key and owner, in its
      batch or anywhere on its way.  When the worker is done with that copy, the newer one is still queued
      if and only if the copy had been put back before, or the newer one is of a later epoch, or it is of
      an earlier one and the worker did not requeue.  Otherwise, which is always so within one epoch, it
      is lost: forgotten, or overwritten by the worker's older one.  It was not written meanwhile. */
  lemma {:induction false} NewerKeptIffLaterEpoch(s: State, key: string, newer: Item, now: int, steps: seq<Step>)
    requires Inv(s) && HoldsCopy(s, key) && Enqueueable(s.queue, key, newer)
    requires newer.owner == CopyOf(s, key).owner && newer.payload != CopyOf(s, key).payload
    requires var m := Exec(s, External(key, newer, now));
             Legal(m, steps) && UntilDone(m, steps, key) && LeaveAlone(steps, key)
    ensures var m := Exec(s, External(key, newer, now));
            var t, item, entry := Run(m, steps), CopyOf(s, key), Entry(s.queue, key, newer, now);
            && (if key !in s.due && PutBack(s.worker) then Queued(t.queue, key, entry)
                else Fate(t.queue, key, item, entry, Requeues(m, steps, key)))
            && OnlyWrote(s.writes, t.writes, key, item)
  {
    hide Legal, UntilDone, Run, Requeues, Fate, OnlyWrote, LeaveAlone;
    hide Marked, DueItems, Cancelled, GateOf, GateOpens, Delay;
    var m, item, entry := Exec(s, External(key, newer, now)), CopyOf(s, key), Entry(s.queue, key, newer, now);
    if key !in s.due && PutBack(s.worker) {
      PutBackUntilDone(m, steps, key, entry);
      WroteNothing(m.writes, key, item);
    } else {
      EntryUntilDone(m, steps, key, item, entry);
    }
  }

  /** The worker is on its way with the first projection of a key when the second, of the same epoch, arrives. */
  lemma {:induction false} SecondArrivesOnTheWay() returns (first: Item, second: Item, steps: seq<Step>)
    ensures first.payload == 1 && second.payload == 2 && first.epoch == second.epoch == 1 &&
              first.owner == second.owner == "u"
    ensures Legal(Fresh({"u"}), steps)
    ensures var s := Run(Fresh({"u"}), steps);
            s == State(map["k" := second.(next := 2 * SECOND)], map[], Wanting("k", first), map[], {"u"}, [])
    ensures |steps| == 4 && steps[2] == Pick("k")
  {
    var a := Item("u", 1, false, 1, {}, 0, 0);
    second := Item("u", 1, false, 2, {}, 0, 0);
    steps := [External("k", a, 0), Dequeue(SECOND), Pick("k"), External("k", second, SECOND)];
    var s0 := Fresh({"u"});
    var queued := a.(next := SECOND);
    var flying := queued.(inFlight := true);
    var s1 := s0.(queue := map["k" := queued]);
    var s2 := s0.(queue := map["k" := flying], due := map["k" := flying]);
    var s3 := s0.(queue := map["k" := flying], worker := Wanting("k", flying.(attempts := 1)));
    first := flying.(attempts := 1);
    assert Exec(s0, steps[0]) == s1;
    assert Exec(s1, steps[1]) == s2;
    assert Exec(s2, steps[2]) == s3;
    var s4 := Exec(s3, steps[3]);
    assert s4.queue == map["k" := second.(next := 2 * SECOND)];
    RunFour(s0, s1, s2, s3, s4, steps);
  }

  /** The same, but the second arrives while the first still waits in the worker's batch. */
  lemma {:induction false} SecondArrivesDuringBatch() returns (first: Item, second: Item, steps: seq<Step>)
    ensures first.payload == 1 && second.payload == 2 && first.epoch == second.epoch == 1
    ensures first.owner == second.owner == "u"
    ensures Legal(Fresh({"u"}), steps)
    ensures var s := Run(Fresh({"u"}), steps);
            s == State(map["k" := second.(next := 2 * SECOND)], map[], Wanting("k", first), map[], {"u"}, [])
    ensures |steps| == 4 && steps[2].External? && steps[3] == Pick("k")
  {
    var a := Item("u", 1, false, 1, {}, 0, 0);
    second := Item("u", 1, false, 2, {}, 0, 0);
    steps := [External("k", a, 0), Dequeue(SECOND), External("k", second, SECOND), Pick("k")];
    var s0 := Fresh({"u"});
    var queued := a.(next := SECOND);
    var flying := queued.(inFlight := true);
    var s1 := s0.(queue := map["k" := queued]);
    var s2 := s0.(queue := map["k" := flying], due := map["k" := flying]);
    var s3 := s0.(queue := map["k" := second.(next := 2 * SECOND)], due := map["k" := flying]);
    first := flying.(attempts := 1);
    assert Exec(s0, steps[0]) == s1;
    assert Exec(s1, steps[1]) == s2;
    assert Exec(s2, steps[2]).queue == s3.queue;
    var s4 := Exec(s3, steps[3]);
    assert s4.due == map[];
    RunFour(s0, s1, s2, s3, s4, steps);
  }

  lemma SecondArrives(duringBatch: bool) returns (first: Item, second: Item, steps: seq<Step>)
    ensures first.payload == 1 && second.payload == 2 && first.epoch == second.epoch == 1
    ensures first.owner == second.owner == "u"
    ensures Legal(Fresh({"u"}), steps) && |steps| == 4
    ensures if duringBatch then steps[2].External? && steps[3] == Pick("k") else steps[2] == Pick("k")
    ensures var s := Run(Fresh({"u"}), steps);
            s == State(map["k" := second.(next := 2 * SECOND)], map[], Wanting("k", first), map[], {"u"}, [])
  {
    if duringBatch {
      first, second, steps := SecondArrivesDuringBatch();
    } else {
      first, second, steps := SecondArrivesOnTheWay();
    }
  }

  lemma RunFour(s0: State, s1: State, s2: State, s3: State, s4: State, steps: seq<Step>)
    requires |steps| == 4
    requires Enabled(s0, steps[0]) && s1 == Exec(s0, steps[0]) && Enabled(s1, steps[1]) && s2 == Exec(s1, steps[1])
    requires Enabled(s2, steps[2]) && s3 == Exec(s2, steps[2]) && Enabled(s3, steps[3]) && s4 == Exec(s3, steps[3])
    ensures Legal(s0, steps) && Run(s0, steps) == s4
  {
    hide Exec, Enabled;
    var r1, r2, r3 := steps[1..], steps[1..][1..], steps[1..][1..][1..];
    assert r1[0] == steps[1] && r2[0] == steps[2] && r3[0] == steps[3] && r3[1..] == [];
    assert Legal(s3, r3) && Run(s3, r3) == s4;
    assert Legal(s2, r2) && Run(s2, r2) == s4;
    assert Legal(s1, r1) && Run(s1, r1) == s4;
  }

  lemma {:induction false} RunConcat(s: State, first: seq<Step>, rest: seq<Step>)
    requires Legal(s, first) && Legal(Run(s, first), rest)
    ensures Legal(s, first + rest) && Run(s, first + rest) == Run(Run(s, first), rest)
    decreases |first|
  {
    hide Exec, Enabled;
    if first == [] {
      assert first + rest == rest;
    } else {
      RunConcat(Exec(s, first[0]), first[1..], rest);
      assert (first + rest)[1..] == first[1..] + rest;
    }
  }

  /** The worker succeeds with the first projection and forgets the second, whether that came while the
      first was in the batch or on its way. */
  lemma {:induction false} SecondIsForgotten(duringBatch: bool) returns (steps: seq<Step>)
    ensures Legal(Fresh({"u"}), steps)
    ensures duringBatch == (|steps| >= 4 && steps[2].External? && steps[3] == Pick("k"))
    ensures var t := Run(Fresh({"u"}), steps);
            t.worker.Resting? && t.queue == map[] && t.due == map[] && |t.writes| == 1 && t.writes[0].item.payload == 1
  {
    hide Legal, Run, Marked, DueItems, Cancelled, Delay;
    var first, second, begin := SecondArrives(duringBatch);
    var s0 := Run(Fresh({"u"}), begin);
    var rest := [TakeGate, Apply(Applied), Release, Forget];
    var s1 := s0.(worker := Holding("k", first));
    var s2 := s0.(worker := Wrote("k", first, false), writes := [Write("k", first, 1, true)]);
    var s3 := s2.(worker := Finishing("k", first));
    var s4 := s2.(worker := Resting, queue := map[]);
    assert Exec(s0, rest[0]) == s1 && Exec(s1, rest[1]) == s2 && Exec(s2, rest[2]) == s3 && Exec(s3, rest[3]) == s4;
    RunFour(s0, s1, s2, s3, s4, rest);
    RunConcat(Fresh({"u"}), begin, rest);
    steps := begin + rest;
  }

  /** The store fails, and the worker puts the first projection back in the place of the second. */
  lemma {:induction false} SecondIsOverwritten(duringBatch: bool) returns (steps: seq<Step>)
    ensures Legal(Fresh({"u"}), steps)
    ensures duringBatch == (|steps| >= 4 && steps[2].External? && steps[3] == Pick("k"))
    ensures var t := Run(Fresh({"u"}), steps);
            && t.worker.Requeued? && t.worker.accepted && t.worker.key == "k" && t.worker.item.payload == 1
            && Overwritten(t.queue, "k", t.worker.item) && t.writes == []
  {
    hide Legal, Run, Marked, DueItems, Cancelled, Delay;
    var first, second, begin := SecondArrives(duringBatch);
    var s0 := Run(Fresh({"u"}), begin);
    var rest := [TakeGate, Apply(StoreError), Release, TakeGate];
    var s1 := s0.(worker := Holding("k", first));
    var s2 := s0.(worker := Wrote("k", first, true));
    var s3 := s0.(worker := WantingAgain("k", first));
    var s4 := s0.(worker := Requeueing("k", first));
    assert Exec(s0, rest[0]) == s1 && Exec(s1, rest[1]) == s2 && Exec(s2, rest[2]) == s3 && Exec(s3, rest[3]) == s4;
    RunFour(s0, s1, s2, s3, s4, rest);
    RunConcat(Fresh({"u"}), begin, rest);
    RunOne(s4, Requeue(SECOND));
    RunConcat(Fresh({"u"}), begin + rest, [Requeue(SECOND)]);
    steps := begin + rest + [Requeue(SECOND)];
  }

  lemma RunOne(s: State, step: Step)
    requires Enabled(s, step)
    ensures Legal(s, [step]) && Run(s, [step]) == Exec(s, step)
  {
    assert [step][1..] == [];
    assert Run(Exec(s, step), []) == Exec(s, step);
  }
}
