/** What the operations of the retry queue mean: which projection is accepted, what its entry holds, when the
    worker takes it, and what removing and cancelling leave. */
module RetryRules {
  import opened ProjectionRetry

  /** The first attempts are a second apart, and each further one waits twice as long, up to 30 seconds. */
  lemma DelayDoubles(attempt: int)
    ensures attempt <= 1 ==> Delay(attempt) == 1_000_000_000
    ensures var twice := 2 * Delay(attempt);
            attempt >= 1 ==> Delay(attempt + 1) == if twice <= 30_000_000_000 then twice else 30_000_000_000
  {
  }

  /** A projection is taken in if and only if it is complete and either new, with fewer than 256 entries, or
      of the owner of the entry it replaces and of no older epoch.  Its entry is not in flight, is due after
      the delay of its attempts, and keeps the larger number of attempts within an epoch. */
  lemma EnqueueMeans(q: Queue, key: string, item: Item, now: int)
    ensures Enqueueable(q, key, item) <==>
              && key != "" && item.owner != "" && item.epoch > 0
              && if key in q then q[key].owner == item.owner && q[key].epoch <= item.epoch else |q| < 256
    ensures var r := Enqueued(q, key, item, now);
            if !Enqueueable(q, key, item) then r == q else
              && r - {key} == q - {key} && key in r
              && r[key] == Item(item.owner, item.epoch, false, item.payload, item.tunnels, r[key].attempts, r[key].next)
              && r[key].next == now + Delay(r[key].attempts)
              && r[key].attempts ==
                   if key in q && q[key].epoch == item.epoch && item.attempts < q[key].attempts
                   then q[key].attempts else item.attempts
  {
  }

  /** An entry is taken from the end of its delay on, and once taken it is not taken again. */
  lemma TakenAfterItsDelay(q: Queue, key: string, item: Item, now: int, t: int)
    requires Enqueueable(q, key, item)
    ensures var r := Enqueued(q, key, item, now);
            && (key in DueItems(r, t) <==> t - now >= Delay(r[key].attempts))
            && forall later: int :: key in DueItems(r, t) ==> key !in DueItems(Marked(r, t), later)
  {
  }

  /** Taking copies exactly the entries that wait and whose time has come, and marks them. */
  lemma TakesExactly(q: Queue, now: int, key: string)
    ensures key in DueItems(q, now) <==> key in q && !q[key].inFlight && q[key].next <= now
    ensures Marked(q, now).Keys == q.Keys
    ensures key in q ==> var taken := key in DueItems(q, now);
              && Marked(q, now)[key] == q[key].(inFlight := q[key].inFlight || taken)
              && (taken ==> DueItems(q, now)[key] == Marked(q, now)[key])
  {
  }

  /** Removing takes the entry of that key away unless it is of another owner or epoch, and nothing else. */
  lemma RemovesExactly(q: Queue, key: string, item: Item, k: string)
    ensures k in Removed(q, key, item) <==>
              k in q && (k == key ==> q[k].owner != item.owner || q[k].epoch != item.epoch)
    ensures k in Removed(q, key, item) ==> Removed(q, key, item)[k] == q[k]
  {
  }

  /** Cancelling takes away the entries of the user and those with one of the tunnels, and nothing else. */
  lemma CancelsExactly(q: Queue, user: string, tunnels: set<string>, k: string)
    ensures k in Cancelled(q, user, tunnels) <==>
              k in q && (user == "" || q[k].owner != user) && q[k].tunnels !! tunnels
    ensures k in Cancelled(q, user, tunnels) ==> Cancelled(q, user, tunnels)[k] == q[k]
  {
    if k in q && OwnedBy(q[k], user, tunnels) && (user == "" || q[k].owner != user) {
      var t :| t in q[k].tunnels && t in tunnels;
      assert t in q[k].tunnels * tunnels;
    }
  }

  // ---------- after a cancellation ----------

  /** Nothing of this user is queued from before this epoch. */
  ghost predicate OnlySince(s: State, user: string, epoch: nat) {
    && epoch <= GateOf(s, user).epoch
    && forall k :: k in s.queue && s.queue[k].owner == user ==> epoch <= s.queue[k].epoch
  }

  /** Nobody queues a projection of this user that was captured before this epoch. */
  ghost predicate Current(step: Step, user: string, epoch: nat) {
    step.External? && step.item.owner == user ==> epoch <= step.item.epoch
  }

  lemma {:induction false} StepKeepsOnlySince(s: State, step: Step, user: string, epoch: nat)
    requires Inv(s) && Enabled(s, step) && OnlySince(s, user, epoch) && Current(step, user, epoch)
    ensures OnlySince(Exec(s, step), user, epoch)
  {
    hide Delay, Due, OwnedBy;
  }

  lemma {:induction false} RunKeepsOnlySince(s: State, steps: seq<Step>, user: string, epoch: nat)
    requires Inv(s) && Legal(s, steps) && OnlySince(s, user, epoch)
    requires forall i :: 0 <= i < |steps| ==> Current(steps[i], user, epoch)
    ensures OnlySince(Run(s, steps), user, epoch)
    decreases |steps|
  {
    hide Exec, Enabled, Inv, OnlySince, Current;
    if steps != [] {
      ExecKeepsInv(s, steps[0]);
      StepKeepsOnlySince(s, steps[0], user, epoch);
      RunKeepsOnlySince(Exec(s, steps[0]), steps[1..], user, epoch);
    }
  }

  /** What cancelling a user's retries removes stays out of the queue: the worker, which may hold copies,
      never puts one of an epoch before the cancellation back. */
  lemma {:induction false} CancelledStayOut(s: State, user: string, tunnels: set<string>, steps: seq<Step>)
    requires Inv(s) && user != "" && Enabled(s, CancelRetries(user, tunnels))
    requires Legal(Exec(s, CancelRetries(user, tunnels)), steps)
    requires forall i :: 0 <= i < |steps| ==> Current(steps[i], user, GateOf(s, user).epoch)
    ensures OnlySince(Run(Exec(s, CancelRetries(user, tunnels)), steps), user, GateOf(s, user).epoch)
  {
    hide Inv, Legal, Run, Current;
    var t := Exec(s, CancelRetries(user, tunnels));
    ExecKeepsInv(s, CancelRetries(user, tunnels));
    assert OnlySince(t, user, GateOf(s, user).epoch);
    RunKeepsOnlySince(t, steps, user, GateOf(s, user).epoch);
  }

  // ---------- a disabled user ----------

  /** Nothing that was captured for this user has been written since then. */
  ghost predicate NotWrittenSince(writes: seq<Write>, user: string, since: nat) {
    since <= |writes| && forall i :: since <= i < |writes| ==> writes[i].item.owner != user
  }

  lemma {:induction false} DisabledStep(s: State, step: Step, user: string, since: nat)
    requires Inv(s) && Enabled(s, step) && user !in s.active && step != SetActive(user, true)
    requires NotWrittenSince(s.writes, user, since)
    ensures user !in Exec(s, step).active && NotWrittenSince(Exec(s, step).writes, user, since)
  {
    hide Enqueued, Marked, Removed, Cancelled, DueItems, Enqueueable;
  }

  lemma {:induction false} DisabledRun(s: State, steps: seq<Step>, user: string, since: nat)
    requires Inv(s) && Legal(s, steps) && user !in s.active && SetActive(user, true) !in steps
    requires NotWrittenSince(s.writes, user, since)
    ensures NotWrittenSince(Run(s, steps).writes, user, since)
    decreases |steps|
  {
    hide Inv, Exec, Enabled, NotWrittenSince;
    if steps != [] {
      ExecKeepsInv(s, steps[0]);
      DisabledStep(s, steps[0], user, since);
      DisabledRun(Exec(s, steps[0]), steps[1..], user, since);
    }
  }

  /** From the moment a user is disabled until enabled again, no projection of theirs is written, whatever the
      worker has in its hands. */
  lemma {:induction false} DisabledIsNotWritten(s: State, user: string, steps: seq<Step>)
    requires Inv(s) && Enabled(s, SetActive(user, false)) && Legal(Exec(s, SetActive(user, false)), steps)
    requires SetActive(user, true) !in steps
    ensures NotWrittenSince(Run(Exec(s, SetActive(user, false)), steps).writes, user, |s.writes|)
  {
    hide Inv, Legal, Run;
    ExecKeepsInv(s, SetActive(user, false));
    DisabledRun(Exec(s, SetActive(user, false)), steps, user, |s.writes|);
  }

  // ---------- no entry gets stuck ----------

  /** The worker is about to finish with this entry: it holds a copy of its owner and epoch that it has not
      put back. */
  predicate InHands(s: State, key: string) {
    && HoldsCopy(s, key) && !(BusyWith(s.worker, key) && PutBack(s.worker))
    && key in s.queue && CopyOf(s, key).owner == s.queue[key].owner && CopyOf(s, key).epoch == s.queue[key].epoch
  }

  /** Every entry that is marked as in flight really is, and every entry could be queued again. */
  ghost predicate NothingStuck(s: State) {
    SingleCopy(s) && forall k :: k in s.queue ==> EntryOk(s, k)
  }

  ghost predicate EntryOk(s: State, k: string)
    requires k in s.queue
  {
    k != "" && s.queue[k].owner != "" && s.queue[k].epoch > 0 && (s.queue[k].inFlight ==> InHands(s, k))
  }

  lemma {:induction false} QueueingKeepsEntry(s: State, step: Step, k: string)
    requires NothingStuck(s) && Enabled(s, step) && (step.External? || step.Requeue?) && k in Exec(s, step).queue
    ensures EntryOk(Exec(s, step), k)
  {
    hide Delay;
    assert k in s.queue ==> EntryOk(s, k);
  }

  lemma {:induction false} WorkingKeepsEntry(s: State, step: Step, k: string)
    requires NothingStuck(s) && Enabled(s, step) && k in Exec(s, step).queue
    requires step.Pick? || step.TakeGate? || step.Apply? || step.Release? || step.Forget?
    ensures EntryOk(Exec(s, step), k)
  {
    hide GateOpens, GateOf;
    assert EntryOk(s, k);
  }

  lemma {:induction false} OthersKeepEntry(s: State, step: Step, k: string)
    requires NothingStuck(s) && Enabled(s, step) && k in Exec(s, step).queue
    requires step.Dequeue? || step.LockGate? || step.SetActive? || step.Bump? || step.CancelRetries? || step.UnlockGate?
    ensures EntryOk(Exec(s, step), k)
  {
    hide GateOf, OwnedBy;
    assert EntryOk(s, k);
  }

  lemma {:induction false} StepKeepsNothingStuck(s: State, step: Step)
    requires NothingStuck(s) && Enabled(s, step)
    ensures NothingStuck(Exec(s, step))
  {
    hide Exec, Enabled, EntryOk;
    ExecKeepsSingleCopy(s, step);
    forall k | k in Exec(s, step).queue ensures EntryOk(Exec(s, step), k) {
      if step.External? || step.Requeue? {
        QueueingKeepsEntry(s, step, k);
      } else if step.Pick? || step.TakeGate? || step.Apply? || step.Release? || step.Forget? {
        WorkingKeepsEntry(s, step, k);
      } else {
        OthersKeepEntry(s, step, k);
      }
    }
  }

  /** In every run from the start: when the worker rests with an empty batch, no entry is in flight, so that each
      will be taken when its time has come. */
  lemma {:induction false} NothingIsStuck(active: set<string>, steps: seq<Step>, now: int)
    requires Legal(Fresh(active), steps)
    ensures var s := Run(Fresh(active), steps);
            s.worker.Resting? && s.due == map[] ==>
              DueItems(s.queue, now).Keys == set k | k in s.queue && s.queue[k].next <= now
  {
    hide Legal, Run;
    RunKeepsNothingStuck(Fresh(active), steps);
  }

  lemma {:induction false} RunKeepsNothingStuck(s: State, steps: seq<Step>)
    requires NothingStuck(s) && Legal(s, steps)
    ensures NothingStuck(Run(s, steps))
    decreases |steps|
  {
    hide Exec, Enabled, NothingStuck;
    if steps != [] {
      StepKeepsNothingStuck(s, steps[0]);
      RunKeepsNothingStuck(Exec(s, steps[0]), steps[1..]);
    }
  }

  // ---------- a retry that fails ----------

  /** The steps in which the worker fails with an item and puts it back. */
  function FailingSteps(key: string, now: int): seq<Step> {
    [Pick(key), TakeGate, Apply(StoreError), Release, TakeGate, Requeue(now), Release]
  }

  /** A retry that the store refuses is queued again with one more attempt, due after the delay of that. */
  lemma {:induction false} FailureCountsOnce(s: State, key: string, now: int)
    requires s.worker.Resting? && key in s.due && key in s.queue && s.due[key] == s.queue[key] && key != ""
    requires var item := s.due[key];
             item.inFlight && item.owner != "" && item.epoch > 0 && GateOpens(s, item) && !GateOf(s, item.owner).locked
    ensures var steps, item := FailingSteps(key, now), s.due[key];
            && Legal(s, steps)
            && var t := Run(s, steps);
               && t == s.(due := s.due - {key}, queue := t.queue) && t.queue - {key} == s.queue - {key}
               && key in t.queue
               && t.queue[key] == item.(inFlight := false, attempts := item.attempts + 1,
                                        next := now + Delay(item.attempts + 1))
  {
    hide Delay, Legal, Run;
    var steps, item := FailingSteps(key, now), s.due[key].(attempts := s.due[key].attempts + 1);
    var s1 := s.(due := s.due - {key}, worker := Wanting(key, item));
    var s5 := s1.(worker := Requeueing(key, item));
    var s6 := s1.(queue := Enqueued(s.queue, key, item, now), worker := Requeued(key, item, true));
    var states := [s, s1, s1.(worker := Holding(key, item)), s1.(worker := Wrote(key, item, true)),
                   s1.(worker := WantingAgain(key, item)), s5, s6, s6.(worker := Resting)];
    RunsThrough(states, steps);
  }

  lemma {:induction false} RunsThrough(states: seq<State>, steps: seq<Step>)
    requires |states| == |steps| + 1
    requires forall i :: 0 <= i < |steps| ==> Enabled(states[i], steps[i]) && states[i + 1] == Exec(states[i], steps[i])
    ensures Legal(states[0], steps) && Run(states[0], steps) == states[|steps|]
    decreases |steps|
  {
    hide Enabled, Exec;
    if steps != [] {
      RunsThrough(states[1..], steps[1..]);
    }
  }

  // ---------- disabling a user from beginning to end ----------

  /** What disabling a user does under the lifecycle gate. */
  function DisablingSteps(user: string, tunnels: set<string>): seq<Step> {
    [LockGate(user), SetActive(user, false), Bump(user), CancelRetries(user, tunnels), UnlockGate(user)]
  }

  /** The state with another gate of this user, other active users and another queue. */
  function With(s: State, user: string, gate: Gate, active: set<string>, queue: Queue): State {
    s.(gates := s.gates[user := gate], active := active, queue := queue)
  }

  /** The steps that hold the gate. */
  lemma UnderGate(s: State, user: string, epoch: nat, active: set<string>, queue: Queue, tunnels: set<string>)
    ensures var t := With(s, user, Gate(epoch, true), active, queue);
            && Enabled(t, SetActive(user, false)) && Enabled(t, Bump(user)) && Enabled(t, CancelRetries(user, tunnels))
            && Enabled(t, UnlockGate(user))
            && Exec(t, SetActive(user, false)) == With(s, user, Gate(epoch, true), active - {user}, queue)
            && Exec(t, Bump(user)) == With(s, user, Gate(epoch + 1, true), active, queue)
            && Exec(t, CancelRetries(user, tunnels)) ==
                 With(s, user, Gate(epoch, true), active, Cancelled(queue, user, tunnels))
            && Exec(t, UnlockGate(user)) == With(s, user, Gate(epoch, false), active, queue)
  {
    hide Cancelled;
    var t := With(s, user, Gate(epoch, true), active, queue);
    assert GateOf(t, user) == Gate(epoch, true);
    assert t.gates[user := Gate(epoch + 1, true)] == s.gates[user := Gate(epoch + 1, true)];
    assert t.gates[user := Gate(epoch, false)] == s.gates[user := Gate(epoch, false)];
  }

  /** Whenever the worker does not hold the user's gate, disabling the user goes through: the epoch moves on by
      one, the user is inactive, the retries are gone, the gate is free again, and nothing else changes. */
  lemma {:induction false} DisablingGoesThrough(s: State, user: string, tunnels: set<string>)
    requires Enabled(s, LockGate(user))
    ensures var steps := DisablingSteps(user, tunnels);
            && Legal(s, steps)
            && Run(s, steps) == s.(gates := s.gates[user := Gate(GateOf(s, user).epoch + 1, false)],
                                   active := s.active - {user}, queue := Cancelled(s.queue, user, tunnels))
  {
    var e, off, left := GateOf(s, user).epoch, s.active - {user}, Cancelled(s.queue, user, tunnels);
    assert Exec(s, LockGate(user)) == With(s, user, Gate(e, true), s.active, s.queue);
    hide Enabled, Exec, Legal, Run, Cancelled;
    UnderGate(s, user, e, s.active, s.queue, tunnels);
    UnderGate(s, user, e, off, s.queue, tunnels);
    UnderGate(s, user, e + 1, off, s.queue, tunnels);
    UnderGate(s, user, e + 1, off, left, tunnels);
    RunsThrough([s, With(s, user, Gate(e, true), s.active, s.queue), With(s, user, Gate(e, true), off, s.queue),
                 With(s, user, Gate(e + 1, true), off, s.queue), With(s, user, Gate(e + 1, true), off, left),
                 With(s, user, Gate(e + 1, false), off, left)], DisablingSteps(user, tunnels));
  }
}
