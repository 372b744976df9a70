// delivery_lane.py: the admission rules of the dispatcher as predicates over the delivery tables, and
// runs.  The steps are the updates of `message_deliveries` in runtime.py and service.py.
module DeliveryLanes {
  import opened Wrappers

  datatype State = Queued | Leased | Dispatched | Delivered | Acknowledged | Handled | Dead

  /** A delivery with its message's sequence number and work; the empty owner token is `None`. */
  datatype Delivery = Delivery(
    recipient: nat,
    attachment: Option<nat>,
    runtime: Option<nat>,
    work: Option<nat>,
    sequence: nat,
    state: State,
    owner: Option<nat>,
    leaseUntil: Option<nat>)

  /** `cao` holds the recipients whose role is supervisor; `busy` the busy runtimes; `paused` the paused works. */
  datatype Tables = Tables(deliveries: seq<Delivery>, cao: set<nat>, paused: set<nat>, busy: set<nat>, now: nat)

  /** One message reaches a recipient at most once, and messages have distinct sequence numbers. */
  ghost predicate WellFormed(t: Tables)
  {
    forall i, j :: 0 <= i < j < |t.deliveries| && t.deliveries[i].recipient == t.deliveries[j].recipient ==>
      t.deliveries[i].sequence != t.deliveries[j].sequence
  }

  // ---------------------------------------------------------------- runtime lanes

  predicate Pending(s: State)
  {
    s in {Queued, Leased, Dispatched, Delivered, Acknowledged}
  }

  lemma {:induction false} PendingOrFinished(s: State)
    ensures Pending(s) || s in {Handled, Dead}
  {
    match s
    case Queued => case Leased => case Dispatched => case Delivered => case Acknowledged => case Handled => case Dead =>
  }

  predicate Paused(t: Tables, d: Delivery)
  {
    d.work.Some? && d.work.value in t.paused
  }

  /** A queued, unowned delivery of a paused work does not hold up the lane. */
  predicate Exempt(t: Tables, d: Delivery)
  {
    d.state == Queued && d.owner.None? && Paused(t, d)
  }

  predicate RuntimeBlocks(t: Tables, p: Delivery, d: Delivery)
  {
    && p.recipient == d.recipient && p.sequence < d.sequence && Pending(p.state) && p.attachment.None?
    && !Exempt(t, p) && p.runtime == d.runtime
  }

  predicate RuntimeHead(t: Tables, d: Delivery)
  {
    !Paused(t, d) && forall k :: 0 <= k < |t.deliveries| ==> !RuntimeBlocks(t, t.deliveries[k], d)
  }

  predicate SameRuntimeLane(a: Delivery, b: Delivery)
  {
    a.recipient == b.recipient && a.runtime == b.runtime && a.attachment.None? && b.attachment.None?
  }

  /** In every table, at most one pending delivery of a runtime lane satisfies the head predicate. */
  lemma {:induction false} AtMostOneHead(t: Tables, i: nat, j: nat)
    requires WellFormed(t) && i < |t.deliveries| && j < |t.deliveries|
    requires SameRuntimeLane(t.deliveries[i], t.deliveries[j])
    requires Pending(t.deliveries[i].state) && RuntimeHead(t, t.deliveries[i])
    requires Pending(t.deliveries[j].state) && RuntimeHead(t, t.deliveries[j])
    ensures i == j
  {
    var a, b := t.deliveries[i], t.deliveries[j];
    assert !RuntimeBlocks(t, a, b) && !RuntimeBlocks(t, b, a);
  }

  ghost predicate OfLane(t: Tables, lane: Delivery, k: nat)
  {
    k < |t.deliveries| && SameRuntimeLane(lane, t.deliveries[k]) && Pending(t.deliveries[k].state) && !Paused(t, t.deliveries[k])
  }

  lemma {:induction false} EarliestOfLane(t: Tables, lane: Delivery, n: nat) returns (first: nat)
    requires n <= |t.deliveries| && exists k: nat :: k < n && OfLane(t, lane, k)
    ensures first < n && OfLane(t, lane, first)
    ensures forall k :: 0 <= k < n && OfLane(t, lane, k) ==> t.deliveries[first].sequence <= t.deliveries[k].sequence
  {
    var last: nat := n - 1;
    if exists k: nat :: k < last && OfLane(t, lane, k) {
      first := EarliestOfLane(t, lane, last);
      if OfLane(t, lane, last) && t.deliveries[last].sequence < t.deliveries[first].sequence {
        first := last;
      }
    } else {
      first := last;
    }
  }

  /**
   * A lane does not stall: if paused works hold only queued, unowned deliveries in it and some work
   * that is not paused has a pending one, then one pending delivery is its head.
   */
  lemma {:induction false} HeadExists(t: Tables, lane: Delivery, some: nat) returns (head: nat)
    requires OfLane(t, lane, some)
    requires forall k :: 0 <= k < |t.deliveries| && SameRuntimeLane(lane, t.deliveries[k]) ==>
      (Pending(t.deliveries[k].state) && Paused(t, t.deliveries[k]) ==> Exempt(t, t.deliveries[k]))
    ensures OfLane(t, lane, head) && RuntimeHead(t, t.deliveries[head])
  {
    head := EarliestOfLane(t, lane, |t.deliveries|);
    forall k | 0 <= k < |t.deliveries| ensures !RuntimeBlocks(t, t.deliveries[k], t.deliveries[head]) {
      assert OfLane(t, lane, k) ==> t.deliveries[head].sequence <= t.deliveries[k].sequence;
    }
  }

  /** A head overtakes only queued, unowned deliveries of other works, which are paused. */
  lemma {:induction false} HeadOvertakesOnlyPaused(t: Tables, i: nat, j: nat)
    requires i < |t.deliveries| && j < |t.deliveries| && SameRuntimeLane(t.deliveries[i], t.deliveries[j])
    requires t.deliveries[i].sequence < t.deliveries[j].sequence && Pending(t.deliveries[i].state)
    requires RuntimeHead(t, t.deliveries[j])
    ensures Exempt(t, t.deliveries[i]) && t.deliveries[i].work != t.deliveries[j].work
  {
    assert !RuntimeBlocks(t, t.deliveries[i], t.deliveries[j]);
  }

  // ---------------------------------------------------------------- attachment lanes

  predicate SameAttachment(a: Delivery, b: Delivery)
  {
    a.recipient == b.recipient && a.attachment == b.attachment && a.attachment.Some?
  }

  predicate InFlight(d: Delivery)
  {
    d.state == Dispatched && d.owner.Some?
  }

  predicate LeaseRuns(t: Tables, d: Delivery)
  {
    d.leaseUntil.Some? && d.leaseUntil.value > t.now
  }

  predicate Companion(p: Delivery, n: Delivery)
  {
    InFlight(n) && n.runtime == p.runtime && SameAttachment(n, p)
  }

  /** The owner of the newest owned dispatch on the same runtime and attachment is this delivery's owner. */
  predicate OwnsNewest(t: Tables, p: Delivery)
  {
    exists n :: 0 <= n < |t.deliveries| && Companion(p, t.deliveries[n]) && t.deliveries[n].owner == p.owner
      && forall m :: 0 <= m < |t.deliveries| && Companion(p, t.deliveries[m]) ==> t.deliveries[m].sequence <= t.deliveries[n].sequence
  }

  predicate HeldByBusyRuntime(t: Tables, p: Delivery)
  {
    p.runtime.Some? && p.runtime.value in t.busy && OwnsNewest(t, p)
  }

  predicate Live(t: Tables, p: Delivery)
  {
    InFlight(p) && (LeaseRuns(t, p) || HeldByBusyRuntime(t, p))
  }

  predicate NotificationBlocks(t: Tables, p: Delivery, d: Delivery)
  {
    SameAttachment(p, d) && p.sequence < d.sequence && (p.state in {Queued, Leased} || Live(t, p))
  }

  predicate NotificationHead(t: Tables, d: Delivery)
  {
    d.attachment.Some? && forall k :: 0 <= k < |t.deliveries| ==> !NotificationBlocks(t, t.deliveries[k], d)
  }

  lemma {:induction false} EarliestQueued(t: Tables, lane: Delivery, n: nat) returns (first: nat)
    requires n <= |t.deliveries| && exists k: nat :: k < n && QueuedIn(t, lane, k)
    ensures first < n && QueuedIn(t, lane, first)
    ensures forall k :: 0 <= k < n && QueuedIn(t, lane, k) ==> t.deliveries[first].sequence <= t.deliveries[k].sequence
  {
    var last: nat := n - 1;
    if exists k: nat :: k < last && QueuedIn(t, lane, k) {
      first := EarliestQueued(t, lane, last);
      if QueuedIn(t, lane, last) && t.deliveries[last].sequence < t.deliveries[first].sequence {
        first := last;
      }
    } else {
      first := last;
    }
  }

  ghost predicate QueuedIn(t: Tables, lane: Delivery, k: nat)
  {
    k < |t.deliveries| && SameAttachment(lane, t.deliveries[k]) && t.deliveries[k].state == Queued
  }

  /** An attachment does not stall: with nothing leased and no dispatch alive, its earliest queued delivery is admitted. */
  lemma {:induction false} NotificationHeadExists(t: Tables, lane: Delivery, some: nat) returns (head: nat)
    requires QueuedIn(t, lane, some)
    requires forall k :: 0 <= k < |t.deliveries| && SameAttachment(lane, t.deliveries[k]) ==>
      t.deliveries[k].state != Leased && !Live(t, t.deliveries[k])
    ensures QueuedIn(t, lane, head) && NotificationHead(t, t.deliveries[head])
    ensures forall k: nat :: QueuedIn(t, lane, k) ==> t.deliveries[head].sequence <= t.deliveries[k].sequence
  {
    head := EarliestQueued(t, lane, |t.deliveries|);
    forall k | 0 <= k < |t.deliveries| ensures !NotificationBlocks(t, t.deliveries[k], t.deliveries[head]) {
      assert QueuedIn(t, lane, k) ==> t.deliveries[head].sequence <= t.deliveries[k].sequence;
    }
  }

  // ---------------------------------------------------------------- steps

  /** A delivery that was leased, and the runtime whose lane it was in. */
  datatype Claim = Claim(index: nat, runtime: Option<nat>)

  /** `dispatches` and `claims` list the deliveries in the order they were dispatched and leased. */
  datatype System = System(t: Tables, dispatches: seq<nat>, claims: seq<Claim>)

  datatype Step =
    | Enqueue(d: Delivery)
    | Lease(i: nat, owner: nat, until: nat)
    | Expire(i: nat)
    | Release(i: nat)
    | Dispatch(i: nat)
    | Requeue(i: nat)
    | Forget(i: nat)
    | Deliver(i: nat)
    | Acknowledge(i: nat)
    | Handle(i: nat)
    | Die(i: nat)
    | Reactivate(i: nat, lane: Option<nat>)
    | Rebind(i: nat, host: nat)
    | Pause(work: nat)
    | Resume(work: nat)
    | Busy(runtime: nat)
    | Idle(runtime: nat)
    | Tick(now: nat)

  predicate Admitted(t: Tables, d: Delivery)
  {
    if d.recipient in t.cao then d.runtime.Some? && NotificationHead(t, d) else RuntimeHead(t, d)
  }

  predicate IsIn(t: Tables, i: nat, states: set<State>)
  {
    i < |t.deliveries| && t.deliveries[i].state in states
  }

  /** Messages come with growing sequence numbers; one message may go to several recipients. */
  predicate Newest(t: Tables, d: Delivery)
  {
    forall k :: 0 <= k < |t.deliveries| && t.deliveries[k].recipient == d.recipient ==> t.deliveries[k].sequence < d.sequence
  }

  predicate Enabled(t: Tables, step: Step)
  {
    match step
    case Enqueue(d) => d.state == Queued && d.owner.None? && Newest(t, d)
    case Lease(i, _, until) => IsIn(t, i, {Queued}) && Admitted(t, t.deliveries[i])
    case Expire(i) => IsIn(t, i, {Leased}) && t.deliveries[i].leaseUntil.Some? && t.deliveries[i].leaseUntil.value < t.now
    case Release(i) => IsIn(t, i, {Leased})
    case Dispatch(i) => IsIn(t, i, {Leased})
    case Requeue(i) => IsIn(t, i, {Dispatched})
    case Forget(i) => IsIn(t, i, {Dispatched})
    case Deliver(i) => IsIn(t, i, {Dispatched})
    case Acknowledge(i) => IsIn(t, i, {Queued, Leased, Dispatched, Delivered})
    case Handle(i) => IsIn(t, i, {Acknowledged, Dead})
    case Die(i) => IsIn(t, i, {Queued, Leased, Dispatched, Delivered, Acknowledged})
    case Reactivate(i, _) => IsIn(t, i, {Dead})
    case Rebind(i, _) => IsIn(t, i, {Queued}) && t.deliveries[i].attachment.Some?
    case Tick(now) => now >= t.now
    case _ => true
  }

  function Set(t: Tables, i: nat, state: State, owner: Option<nat>, leaseUntil: Option<nat>): Tables
    requires i < |t.deliveries|
  {
    t.(deliveries := t.deliveries[i := t.deliveries[i].(state := state, owner := owner, leaseUntil := leaseUntil)])
  }

  function Requeued(t: Tables, i: nat, runtime: Option<nat>): Tables
    requires i < |t.deliveries|
  {
    t.(deliveries := t.deliveries[i := t.deliveries[i].(state := Queued, owner := None, leaseUntil := None, runtime := runtime)])
  }

  function Perform(y: System, step: Step): System
    requires Enabled(y.t, step)
  {
    var t := y.t;
    match step
    case Enqueue(d) => y.(t := t.(deliveries := t.deliveries + [d]))
    case Lease(i, owner, until) =>
      y.(t := Set(t, i, Leased, Some(owner), Some(until)), claims := y.claims + [Claim(i, t.deliveries[i].runtime)])
    case Expire(i) => y.(t := Set(t, i, Queued, None, None))
    case Release(i) => y.(t := Set(t, i, Queued, None, None))
    case Dispatch(i) =>
      y.(t := Set(t, i, Dispatched, t.deliveries[i].owner, t.deliveries[i].leaseUntil), dispatches := y.dispatches + [i])
    case Requeue(i) => y.(t := Set(t, i, Queued, None, None))
    case Forget(i) => y.(t := Set(t, i, Dispatched, None, None))
    case Deliver(i) => y.(t := Set(t, i, Delivered, None, None))
    case Acknowledge(i) => y.(t := Set(t, i, Acknowledged, None, None))
    case Handle(i) => y.(t := Set(t, i, Handled, None, None))
    case Die(i) => y.(t := Set(t, i, Dead, None, None))
    case Reactivate(i, lane) => y.(t := Requeued(t, i, lane))
    case Rebind(i, host) => y.(t := Requeued(t, i, Some(host)))
    case Pause(work) => y.(t := t.(paused := t.paused + {work}))
    case Resume(work) => y.(t := t.(paused := t.paused - {work}))
    case Busy(runtime) => y.(t := t.(busy := t.busy + {runtime}))
    case Idle(runtime) => y.(t := t.(busy := t.busy - {runtime}))
    case Tick(now) => y.(t := t.(now := now))
  }

  // ---------------------------------------------------------------- attachment order

  /** In the same supervisor attachment, i before j. */
  predicate Before(t: Tables, i: nat, j: nat)
  {
    && i < |t.deliveries| && j < |t.deliveries| && t.deliveries[i].recipient in t.cao
    && SameAttachment(t.deliveries[i], t.deliveries[j]) && t.deliveries[i].sequence < t.deliveries[j].sequence
  }

  /** A later delivery of the attachment is leased or was dispatched. */
  ghost predicate Overtaken(y: System, i: nat)
  {
    exists j: nat :: Before(y.t, i, j) && (y.t.deliveries[j].state == Leased || j in y.dispatches)
  }

  ghost predicate Pair(y: System, i: nat, j: nat)
    requires i < |y.t.deliveries| && j < |y.t.deliveries|
  {
    var a, b := y.t.deliveries[i], y.t.deliveries[j];
    && (b.state == Leased || j in y.dispatches ==> a.state !in {Queued, Leased})
    && (InFlight(a) && LeaseRuns(y.t, a) ==> b.state != Leased && !InFlight(b))
  }

  ghost predicate InOrder(y: System)
  {
    forall a, b :: 0 <= a < b < |y.dispatches| ==> !Before(y.t, y.dispatches[b], y.dispatches[a])
  }

  /** A supervisor's delivery is leased and dispatched only with a runtime. */
  predicate Bound(t: Tables, d: Delivery)
  {
    d.state in {Leased, Dispatched} && d.recipient in t.cao ==> d.runtime.Some?
  }

  ghost predicate LaneInv(y: System)
  {
    && (forall k :: 0 <= k < |y.dispatches| ==> y.dispatches[k] < |y.t.deliveries|)
    && (forall i :: 0 <= i < |y.t.deliveries| && y.t.deliveries[i].state == Dispatched ==> i in y.dispatches)
    && WellFormed(y.t)
    && (forall i :: 0 <= i < |y.t.deliveries| ==> Bound(y.t, y.t.deliveries[i]))
    && (forall i: nat, j: nat :: Before(y.t, i, j) ==> Pair(y, i, j))
    && InOrder(y)
  }

  /** No overtaken or passed delivery goes back to the queue. */
  ghost predicate Careful(y: System, step: Step)
  {
    match step
    case Requeue(i) => !Overtaken(y, i)
    case Reactivate(i, lane) => !Overtaken(y, i) && !Passed(y, Claim(i, lane))
    case _ => true
  }

  /** In the same runtime lane and of the same work, a before b. */
  predicate WorkBefore(t: Tables, a: Claim, b: Claim)
  {
    && a.index < |t.deliveries| && b.index < |t.deliveries| && a.runtime == b.runtime
    && var d, e := t.deliveries[a.index], t.deliveries[b.index];
      && d.recipient !in t.cao && d.recipient == e.recipient && d.attachment.None? && e.attachment.None?
      && d.work == e.work && d.work.Some? && d.sequence < e.sequence
  }

  /** Where a delivery stands now. */
  function Standing(t: Tables, i: nat): Claim
    requires i < |t.deliveries|
  {
    Claim(i, t.deliveries[i].runtime)
  }

  /** A later delivery of the work was leased in that lane. */
  ghost predicate Passed(y: System, a: Claim)
  {
    exists c :: 0 <= c < |y.claims| && WorkBefore(y.t, a, y.claims[c])
  }

  lemma {:induction false} WaitingIsNotOvertaken(y: System, i: nat)
    requires LaneInv(y) && IsIn(y.t, i, {Queued, Leased})
    ensures !Overtaken(y, i)
  {
    forall j: nat | Before(y.t, i, j) ensures y.t.deliveries[j].state != Leased && j !in y.dispatches {
      assert Pair(y, i, j);
    }
  }

  /** What a change of one delivery must respect to keep the invariant. */
  ghost predicate Fits(y: System, k: nat, d: Delivery, logged: bool)
  {
    && k < |y.t.deliveries| && d == y.t.deliveries[k].(state := d.state, owner := d.owner, leaseUntil := d.leaseUntil, runtime := d.runtime)
    && Bound(y.t, d)
    && (d.state in {Queued, Leased} || logged ==> !Overtaken(y, k))
    && (d.state == Dispatched ==> logged || k in y.dispatches)
    && (InFlight(d) && LeaseRuns(y.t, d) ==> forall j: nat :: Before(y.t, k, j) ==> !Claimed(y.t.deliveries[j]))
    && (Claimed(d) ==> forall i: nat :: Before(y.t, i, k) ==> !(InFlight(y.t.deliveries[i]) && LeaseRuns(y.t, y.t.deliveries[i])))
    && (d.state == Leased || logged ==> forall i: nat :: Before(y.t, i, k) ==> y.t.deliveries[i].state !in {Queued, Leased})
  }

  predicate Claimed(d: Delivery)
  {
    d.state == Leased || InFlight(d)
  }

  function Changed(y: System, k: nat, d: Delivery, logged: bool): System
    requires k < |y.t.deliveries|
  {
    y.(t := y.t.(deliveries := y.t.deliveries[k := d]), dispatches := if logged then y.dispatches + [k] else y.dispatches)
  }

  lemma {:induction false} ChangeKeepsPair(y: System, k: nat, d: Delivery, logged: bool, i: nat, j: nat)
    requires LaneInv(y) && Fits(y, k, d, logged) && Before(y.t, i, j)
    ensures Pair(Changed(y, k, d, logged), i, j)
  {
    assert Pair(y, i, j);
  }

  lemma {:induction false} ChangeKeepsInv(y: System, k: nat, d: Delivery, logged: bool)
    requires LaneInv(y) && Fits(y, k, d, logged)
    ensures LaneInv(Changed(y, k, d, logged))
  {
    var z := Changed(y, k, d, logged);
    forall i: nat, j: nat | Before(z.t, i, j) ensures Pair(z, i, j) {
      assert Before(y.t, i, j);
      ChangeKeepsPair(y, k, d, logged, i, j);
    }
    forall a, b | 0 <= a < b < |z.dispatches| ensures !Before(z.t, z.dispatches[b], z.dispatches[a]) {
      assert Before(z.t, z.dispatches[b], z.dispatches[a]) ==> Before(y.t, z.dispatches[b], z.dispatches[a]);
      if b == |y.dispatches| {
        assert z.dispatches[a] in y.dispatches;
      }
    }
  }

  lemma {:induction false} LeaseFits(y: System, i: nat, owner: nat, until: nat)
    requires LaneInv(y) && Enabled(y.t, Lease(i, owner, until))
    ensures Fits(y, i, y.t.deliveries[i].(state := Leased, owner := Some(owner), leaseUntil := Some(until)), false)
  {
    WaitingIsNotOvertaken(y, i);
    forall j: nat | Before(y.t, j, i)
      ensures y.t.deliveries[j].state !in {Queued, Leased} && !(InFlight(y.t.deliveries[j]) && LeaseRuns(y.t, y.t.deliveries[j]))
    {
      assert !NotificationBlocks(y.t, y.t.deliveries[j], y.t.deliveries[i]);
    }
  }

  lemma {:induction false} DispatchFits(y: System, i: nat)
    requires LaneInv(y) && Enabled(y.t, Dispatch(i))
    ensures Fits(y, i, y.t.deliveries[i].(state := Dispatched), true)
  {
    WaitingIsNotOvertaken(y, i);
    forall j: nat | Before(y.t, i, j) ensures !Claimed(y.t.deliveries[j]) {
      assert Pair(y, i, j);
    }
    forall j: nat | Before(y.t, j, i)
      ensures y.t.deliveries[j].state !in {Queued, Leased} && !(InFlight(y.t.deliveries[j]) && LeaseRuns(y.t, y.t.deliveries[j]))
    {
      assert Pair(y, j, i);
    }
  }

  lemma {:induction false} EnqueueKeepsInv(y: System, d: Delivery)
    requires LaneInv(y) && Enabled(y.t, Enqueue(d))
    ensures LaneInv(Perform(y, Enqueue(d)))
  {
    var z := Perform(y, Enqueue(d));
    forall i: nat, j: nat | Before(z.t, i, j) ensures Pair(z, i, j) {
      if i < |y.t.deliveries| && j < |y.t.deliveries| {
        assert Pair(y, i, j);
      }
    }
  }

  lemma {:induction false} ClockKeepsInv(y: System, z: System)
    requires LaneInv(y) && z == y.(t := y.t.(now := z.t.now, busy := z.t.busy, paused := z.t.paused)) && z.t.now >= y.t.now
    ensures LaneInv(z)
  {
    forall i: nat, j: nat | Before(z.t, i, j) ensures Pair(z, i, j) {
      assert Pair(y, i, j);
    }
    assert forall i, j :: Before(z.t, i, j) == Before(y.t, i, j);
  }

  /** Every update of the tables keeps the order of each supervisor attachment. */
  lemma {:induction false} StepKeepsInv(y: System, step: Step)
    requires LaneInv(y) && Enabled(y.t, step) && Careful(y, step)
    ensures LaneInv(Perform(y, step))
  {
    match step
    case Enqueue(d) => EnqueueKeepsInv(y, d);
    case Lease(_, _, _) => ClaimKeepsInv(y, step);
    case Dispatch(_) => ClaimKeepsInv(y, step);
    case Expire(i) => PutBackKeepsInv(y, step, i);
    case Release(i) => PutBackKeepsInv(y, step, i);
    case Rebind(i, _) => PutBackKeepsInv(y, step, i);
    case Requeue(i) => PutBackKeepsInv(y, step, i);
    case Reactivate(i, _) => PutBackKeepsInv(y, step, i);
    case Forget(i) => SettleKeepsInv(y, step, i);
    case Deliver(i) => SettleKeepsInv(y, step, i);
    case Acknowledge(i) => SettleKeepsInv(y, step, i);
    case Handle(i) => SettleKeepsInv(y, step, i);
    case Die(i) => SettleKeepsInv(y, step, i);
    case _ => ClockKeepsInv(y, Perform(y, step));
  }

  lemma {:induction false} ClaimKeepsInv(y: System, step: Step)
    requires LaneInv(y) && Enabled(y.t, step) && (step.Lease? || step.Dispatch?)
    ensures LaneInv(Perform(y, step))
  {
    var z := Perform(y, step);
    match step
    case Lease(i, owner, until) =>
      LeaseFits(y, i, owner, until);
      ChangeKeepsInv(y, i, z.t.deliveries[i], false);
    case Dispatch(i) =>
      DispatchFits(y, i);
      ChangeKeepsInv(y, i, z.t.deliveries[i], true);
  }

  lemma {:induction false} PutBackKeepsInv(y: System, step: Step, i: nat)
    requires LaneInv(y) && Enabled(y.t, step) && Careful(y, step)
    requires step in {Expire(i), Release(i), Requeue(i)} || (step.Rebind? && step.i == i) || (step.Reactivate? && step.i == i)
    ensures LaneInv(Perform(y, step))
  {
    if IsIn(y.t, i, {Queued, Leased}) {
      WaitingIsNotOvertaken(y, i);
    }
    ChangeKeepsInv(y, i, Perform(y, step).t.deliveries[i], false);
  }

  lemma {:induction false} SettleKeepsInv(y: System, step: Step, i: nat)
    requires LaneInv(y) && Enabled(y.t, step)
    requires step in {Forget(i), Deliver(i), Acknowledge(i), Handle(i), Die(i)}
    ensures LaneInv(Perform(y, step))
  {
    ChangeKeepsInv(y, i, Perform(y, step).t.deliveries[i], false);
  }

  ghost predicate Run(trace: seq<System>)
  {
    && trace != [] && trace[0].t.deliveries == [] && trace[0].dispatches == [] && trace[0].claims == []
    && forall k :: 0 <= k < |trace| - 1 ==> Follows(trace[k], trace[k + 1])
  }

  ghost predicate Follows(y: System, z: System)
  {
    exists step :: Enabled(y.t, step) && Careful(y, step) && z == Perform(y, step)
  }

  lemma {:induction false} RunKeepsInv(trace: seq<System>, k: nat)
    requires Run(trace) && k < |trace|
    ensures LaneInv(trace[k])
  {
    if k > 0 {
      RunKeepsInv(trace, k - 1);
      assert Follows(trace[k - 1], trace[k]);
      var step :| Enabled(trace[k - 1].t, step) && Careful(trace[k - 1], step) && trace[k] == Perform(trace[k - 1], step);
      StepKeepsInv(trace[k - 1], step);
    }
  }

  /** Deliveries of one supervisor attachment enter `dispatched` in sequence order. */
  lemma {:induction false} DispatchedInOrder(trace: seq<System>, k: nat, a: nat, b: nat)
    requires Run(trace) && k < |trace| && a < b < |trace[k].dispatches|
    ensures !Before(trace[k].t, trace[k].dispatches[b], trace[k].dispatches[a])
  {
    RunKeepsInv(trace, k);
  }

  /**
   * While one delivery of an attachment is leased, or dispatched under a lease that still runs, no
   * later one is leased or in flight.
   */
  lemma {:induction false} OneInFlight(trace: seq<System>, k: nat, i: nat, j: nat)
    requires Run(trace) && k < |trace| && Before(trace[k].t, i, j)
    requires var d := trace[k].t.deliveries[i]; d.state == Leased || (InFlight(d) && LeaseRuns(trace[k].t, d))
    ensures !Claimed(trace[k].t.deliveries[j])
  {
    RunKeepsInv(trace, k);
    assert Pair(trace[k], i, j);
  }

  predicate Active(t: Tables, d: Delivery)
  {
    d.state == Leased || Live(t, d)
  }

  /**
   * Two deliveries of an attachment are active together exactly when the earlier one's lease has run out
   * and a busy runtime holds it through the owner of its newest dispatch.
   */
  lemma {:induction false} TwoActiveExactlyThroughABusyRuntime(trace: seq<System>, k: nat, i: nat, j: nat)
    requires Run(trace) && k < |trace| && Before(trace[k].t, i, j) && Active(trace[k].t, trace[k].t.deliveries[j])
    ensures Active(trace[k].t, trace[k].t.deliveries[i]) <==>
      var d := trace[k].t.deliveries[i];
      InFlight(d) && !LeaseRuns(trace[k].t, d) && HeldByBusyRuntime(trace[k].t, d)
  {
    var d := trace[k].t.deliveries[i];
    if d.state == Leased || (InFlight(d) && LeaseRuns(trace[k].t, d)) {
      OneInFlight(trace, k, i, j);
      assert false;
    }
  }

  // ---------------------------------------------------------------- what may come of a step

  /** A continuation by careful steps. */
  ghost predicate Onward(trace: seq<System>, y: System)
  {
    && trace != [] && trace[0] == y
    && forall k :: 0 <= k < |trace| - 1 ==> Follows(trace[k], trace[k + 1])
  }

  lemma {:induction false} GoOn(trace: seq<System>, y: System, step: Step) returns (more: seq<System>)
    requires Onward(trace, y) && var z := trace[|trace| - 1]; Enabled(z.t, step) && Careful(z, step)
    ensures Onward(more, y) && more == trace + [Perform(trace[|trace| - 1], step)]
  {
    var next := Perform(trace[|trace| - 1], step);
    more := trace + [next];
    assert Follows(trace[|trace| - 1], next);
    forall k | 0 <= k < |more| - 1 ensures Follows(more[k], more[k + 1]) {
    }
  }

  lemma {:induction false} OnwardKeepsInv(trace: seq<System>, y: System, k: nat)
    requires Onward(trace, y) && LaneInv(y) && k < |trace|
    ensures LaneInv(trace[k])
  {
    if k > 0 {
      OnwardKeepsInv(trace, y, k - 1);
      assert Follows(trace[k - 1], trace[k]);
      var step :| Enabled(trace[k - 1].t, step) && Careful(trace[k - 1], step) && trace[k] == Perform(trace[k - 1], step);
      StepKeepsInv(trace[k - 1], step);
    }
  }

  /** Some careful continuation dispatches deliveries of an attachment out of order. */
  ghost predicate CanBreakOrder(y: System)
  {
    exists trace: seq<System> :: Onward(trace, y) && !InOrder(trace[|trace| - 1])
  }

  lemma {:induction false} InvariantOrderHolds(y: System)
    requires LaneInv(y)
    ensures !CanBreakOrder(y)
  {
    forall trace: seq<System> | Onward(trace, y) ensures InOrder(trace[|trace| - 1]) {
      OnwardKeepsInv(trace, y, |trace| - 1);
    }
  }

  /** The first n deliveries no longer stand in the way of delivery i; the others are as they were. */
  ghost predicate Cleared(y: System, z: System, i: nat, n: nat)
  {
    && z == y.(t := y.t.(deliveries := z.t.deliveries)) && |z.t.deliveries| == |y.t.deliveries|
    && forall k :: 0 <= k < |y.t.deliveries| ==>
      if k < n && Before(y.t, k, i)
      then z.t.deliveries[k].state !in {Queued, Leased, Dispatched}
      else z.t.deliveries[k] == y.t.deliveries[k]
  }

  // Whatever stands in the way may die.
  lemma {:induction false} ClearTheWay(trace: seq<System>, start: System, y: System, i: nat, n: nat) returns (more: seq<System>)
    requires Onward(trace, start) && trace[|trace| - 1] == y && i < |y.t.deliveries| && n <= |y.t.deliveries|
    ensures Onward(more, start) && Cleared(y, more[|more| - 1], i, n)
  {
    more := trace;
    if n > 0 {
      more := ClearTheWay(trace, start, y, i, n - 1);
      var z := more[|more| - 1];
      if Before(y.t, n - 1, i) && z.t.deliveries[n - 1].state in {Queued, Leased, Dispatched} {
        more := GoOn(more, start, Die(n - 1));
      }
    }
  }

  // A queued delivery with a later one already dispatched can still be dispatched.
  lemma {:induction false} BehindOneDispatched(trace: seq<System>, start: System, y: System, i: nat, j: nat)
    requires Onward(trace, start) && trace[|trace| - 1] == y
    requires Before(y.t, i, j) && j in y.dispatches && y.t.deliveries[i].state == Queued && y.t.deliveries[i].runtime.Some?
    ensures CanBreakOrder(start)
  {
    var more := ClearTheWay(trace, start, y, i, |y.t.deliveries|);
    var z := more[|more| - 1];
    assert z.t.deliveries[i] == y.t.deliveries[i] && Before(y.t, i, i) == false;
    forall k | 0 <= k < |z.t.deliveries| ensures !NotificationBlocks(z.t, z.t.deliveries[k], z.t.deliveries[i]) {
      DeadDoNotBlock(y, z, i, k);
    }
    more := GoOn(more, start, Lease(i, 0, 0));
    more := GoOn(more, start, Dispatch(i));
    var last := more[|more| - 1];
    var a :| 0 <= a < |y.dispatches| && y.dispatches[a] == j;
    var b := |y.dispatches|;
    assert last.dispatches == y.dispatches + [i];
    assert last.dispatches[a] == j && last.dispatches[b] == i && LaterStands(y, z, last, i, j);
    assert Before(last.t, i, j);
  }

  ghost predicate LaterStands(y: System, z: System, last: System, i: nat, j: nat)
    requires i < |y.t.deliveries| && j < |y.t.deliveries| && |z.t.deliveries| == |y.t.deliveries| == |last.t.deliveries|
  {
    z.t.deliveries[j] == y.t.deliveries[j] && (j != i ==> last.t.deliveries[j] == z.t.deliveries[j])
  }

  lemma {:induction false} DeadDoNotBlock(y: System, z: System, i: nat, k: nat)
    requires Cleared(y, z, i, |y.t.deliveries|) && i < |y.t.deliveries| && k < |y.t.deliveries|
    requires y.t.deliveries[i].recipient in y.t.cao
    ensures !NotificationBlocks(z.t, z.t.deliveries[k], z.t.deliveries[i])
  {
  }

  lemma {:induction false} BehindOneOvertaking(y: System, i: nat)
    requires Overtaken(y, i) && y.t.deliveries[i].state == Queued && y.t.deliveries[i].runtime.Some?
    ensures CanBreakOrder(y)
  {
    var j: nat :| Before(y.t, i, j) && (y.t.deliveries[j].state == Leased || j in y.dispatches);
    var trace := [y];
    if j !in y.dispatches {
      trace := GoOn(trace, y, Dispatch(j));
    }
    BehindOneDispatched(trace, y, trace[|trace| - 1], i, j);
  }

  /** A dispatched delivery that goes back to the queue can break the order exactly when it was overtaken. */
  lemma {:induction false} RequeueCanBreakOrderExactlyWhenOvertaken(y: System, i: nat)
    requires LaneInv(y) && Enabled(y.t, Requeue(i))
    ensures CanBreakOrder(Perform(y, Requeue(i))) <==> Overtaken(y, i)
  {
    var z := Perform(y, Requeue(i));
    if Overtaken(y, i) {
      OvertakenStill(y, z, i);
      BehindOneOvertaking(z, i);
    } else {
      StepKeepsInv(y, Requeue(i));
      InvariantOrderHolds(z);
    }
  }

  /** So can a dead one that is reactivated for a runtime. */
  lemma {:induction false} ReactivateCanBreakOrderExactlyWhenOvertaken(y: System, i: nat, runtime: nat)
    requires LaneInv(y) && Enabled(y.t, Reactivate(i, Some(runtime)))
    ensures CanBreakOrder(Perform(y, Reactivate(i, Some(runtime)))) <==> Overtaken(y, i)
  {
    var z := Perform(y, Reactivate(i, Some(runtime)));
    if Overtaken(y, i) {
      OvertakenStill(y, z, i);
      BehindOneOvertaking(z, i);
    } else {
      ChangeKeepsInv(y, i, z.t.deliveries[i], false);
      InvariantOrderHolds(z);
    }
  }

  lemma {:induction false} OvertakenStill(y: System, z: System, i: nat)
    requires Overtaken(y, i) && z == y.(t := y.t.(deliveries := z.t.deliveries)) && |z.t.deliveries| == |y.t.deliveries|
    requires forall k :: 0 <= k < |y.t.deliveries| && k != i ==> z.t.deliveries[k] == y.t.deliveries[k]
    requires var d := z.t.deliveries[i];
      d == y.t.deliveries[i].(state := d.state, owner := d.owner, leaseUntil := d.leaseUntil, runtime := d.runtime)
    ensures Overtaken(z, i)
  {
    var j: nat :| Before(y.t, i, j) && (y.t.deliveries[j].state == Leased || j in y.dispatches);
    assert Before(z.t, i, j) && z.t.deliveries[j] == y.t.deliveries[j];
  }

  // ---------------------------------------------------------------- two at once

  ghost predicate EarlierInFlight(t: Tables, j: nat)
  {
    exists i: nat :: Before(t, i, j) && InFlight(t.deliveries[i])
  }

  ghost predicate EarlierActive(t: Tables, j: nat)
  {
    exists i: nat :: Before(t, i, j) && Active(t, t.deliveries[i])
  }

  ghost predicate Holds(trace: seq<System>, j: nat)
  {
    forall k :: 0 <= k < |trace| ==> j < |trace[k].t.deliveries| && Claimed(trace[k].t.deliveries[j])
  }

  /** Some careful continuation, in which j is never given up, has j and an earlier one active together. */
  ghost predicate CanCoexist(y: System, j: nat)
  {
    exists trace: seq<System> :: Onward(trace, y) && Holds(trace, j) && var t := trace[|trace| - 1].t; Active(t, t.deliveries[j]) && EarlierActive(t, j)
  }

  // While j is held, none of the earlier ones starts.
  lemma {:induction false} NoneStartsBehind(y: System, step: Step, j: nat)
    requires LaneInv(y) && Enabled(y.t, step) && Careful(y, step) && j < |y.t.deliveries|
    requires y.t.deliveries[j].state == Leased || j in y.dispatches
    requires !EarlierInFlight(y.t, j)
    ensures !EarlierInFlight(Perform(y, step).t, j)
  {
    var z := Perform(y, step);
    forall i: nat | Before(z.t, i, j) ensures !InFlight(z.t.deliveries[i]) {
      if i < |y.t.deliveries| {
        assert Before(y.t, i, j);
        assert Pair(y, i, j) && !InFlight(y.t.deliveries[i]);
      }
    }
  }

  lemma {:induction false} NoneFollowsBehind(y: System, z: System, j: nat)
    requires LaneInv(y) && Follows(y, z) && j < |y.t.deliveries| && Claimed(y.t.deliveries[j]) && !EarlierInFlight(y.t, j)
    ensures !EarlierInFlight(z.t, j)
  {
    var step :| Enabled(y.t, step) && Careful(y, step) && z == Perform(y, step);
    NoneStartsBehind(y, step, j);
  }

  lemma {:induction false} NoneStartsWhileHeld(trace: seq<System>, y: System, j: nat, k: nat)
    requires Onward(trace, y) && LaneInv(y) && k < |trace| && Holds(trace, j) && !EarlierInFlight(y.t, j)
    ensures !EarlierInFlight(trace[k].t, j)
  {
    if k > 0 {
      var before, now := trace[k - 1], trace[k];
      NoneStartsWhileHeld(trace, y, j, k - 1);
      OnwardKeepsInv(trace, y, k - 1);
      assert Follows(before, now);
      assert j < |before.t.deliveries| && Claimed(before.t.deliveries[j]);
      NoneFollowsBehind(before, now, j);
    }
  }

  lemma {:induction false} NewestInFlight(t: Tables, p: Delivery, n: nat) returns (newest: nat)
    requires n <= |t.deliveries| && exists k: nat :: k < n && Companion(p, t.deliveries[k])
    ensures newest < n && Companion(p, t.deliveries[newest])
    ensures forall k :: 0 <= k < n && Companion(p, t.deliveries[k]) ==> t.deliveries[k].sequence <= t.deliveries[newest].sequence
  {
    var last: nat := n - 1;
    if exists k: nat :: k < last && Companion(p, t.deliveries[k]) {
      newest := NewestInFlight(t, p, last);
      if Companion(p, t.deliveries[last]) && t.deliveries[newest].sequence < t.deliveries[last].sequence {
        newest := last;
      }
    } else {
      newest := last;
    }
  }

  /**
   * As a delivery is leased, it and an earlier one of its attachment can become active together before it
   * is given up exactly when some earlier one is still in flight: the lease of that one has lapsed, and
   * its runtime needs only to be busy.
   */
  lemma {:induction false} TwoCanBeActiveExactlyWhenOneIsInFlight(y: System, j: nat, owner: nat, until: nat)
    requires LaneInv(y) && Enabled(y.t, Lease(j, owner, until))
    ensures CanCoexist(Perform(y, Lease(j, owner, until)), j) <==> EarlierInFlight(y.t, j)
  {
    var z := Perform(y, Lease(j, owner, until));
    StepKeepsInv(y, Lease(j, owner, until));
    forall i: nat ensures Before(z.t, i, j) == Before(y.t, i, j) && (Before(y.t, i, j) ==> z.t.deliveries[i] == y.t.deliveries[i]) {
    }
    if EarlierInFlight(y.t, j) {
      var i: nat :| Before(y.t, i, j) && InFlight(y.t.deliveries[i]);
      assert Before(z.t, i, j) && InFlight(z.t.deliveries[i]);
      BusyRuntimeRevives(z, i, j);
    } else {
      forall trace: seq<System> | Onward(trace, z) && Holds(trace, j) ensures !EarlierActive(trace[|trace| - 1].t, j) {
        var last := trace[|trace| - 1];
        NoneStartsWhileHeld(trace, z, j, |trace| - 1);
        OnwardKeepsInv(trace, z, |trace| - 1);
        forall i: nat | Before(last.t, i, j) ensures !Active(last.t, last.t.deliveries[i]) {
          assert Pair(last, i, j);
        }
      }
    }
  }

  lemma {:induction false} BusyRuntimeRevives(z: System, i: nat, j: nat)
    requires LaneInv(z) && Before(z.t, i, j) && InFlight(z.t.deliveries[i]) && z.t.deliveries[j].state == Leased
    ensures CanCoexist(z, j)
  {
    var n := NewestInFlight(z.t, z.t.deliveries[i], |z.t.deliveries|);
    NewestIsEarlier(z, i, j, n);
    var step := Busy(z.t.deliveries[n].runtime.value);
    NewestRevives(z, Perform(z, step), i, j, n);
    var trace := GoOn([z], z, step);
    Together(trace, z, j);
  }

  lemma {:induction false} Together(trace: seq<System>, z: System, j: nat)
    requires Onward(trace, z) && |trace| == 2 && trace[1].t.deliveries == z.t.deliveries
    requires j < |z.t.deliveries| && z.t.deliveries[j].state == Leased && EarlierActive(trace[1].t, j)
    ensures CanCoexist(z, j)
  {
    assert Holds(trace, j);
  }

  lemma {:induction false} NewestRevives(z: System, w: System, i: nat, j: nat, n: nat)
    requires Before(z.t, n, j) && i < |z.t.deliveries| && Companion(z.t.deliveries[i], z.t.deliveries[n])
    requires forall k :: 0 <= k < |z.t.deliveries| && Companion(z.t.deliveries[i], z.t.deliveries[k]) ==>
      z.t.deliveries[k].sequence <= z.t.deliveries[n].sequence
    requires w.t == z.t.(busy := w.t.busy) && z.t.deliveries[n].runtime.Some? && z.t.deliveries[n].runtime.value in w.t.busy
    ensures EarlierActive(w.t, j)
  {
    NewestOwnsItself(z.t, w.t, z.t.deliveries[i], n);
    BothNow(w.t, n, j);
  }

  lemma {:induction false} BothNow(t: Tables, n: nat, j: nat)
    requires Before(t, n, j) && InFlight(t.deliveries[n]) && HeldByBusyRuntime(t, t.deliveries[n])
    ensures EarlierActive(t, j)
  {
    assert Active(t, t.deliveries[n]);
  }

  lemma {:induction false} NewestOwnsItself(before: Tables, t: Tables, p: Delivery, n: nat)
    requires n < |t.deliveries| && t.deliveries == before.deliveries && Companion(p, t.deliveries[n])
    requires forall k :: 0 <= k < |t.deliveries| && Companion(p, before.deliveries[k]) ==>
      before.deliveries[k].sequence <= before.deliveries[n].sequence
    ensures OwnsNewest(t, t.deliveries[n])
  {
    var d := t.deliveries[n];
    forall m | 0 <= m < |t.deliveries| && Companion(d, t.deliveries[m]) ensures t.deliveries[m].sequence <= d.sequence {
      assert Companion(p, before.deliveries[m]);
    }
    assert Companion(d, t.deliveries[n]);
  }

  lemma {:induction false} NewestIsEarlier(z: System, i: nat, j: nat, n: nat)
    requires LaneInv(z) && Before(z.t, i, j) && InFlight(z.t.deliveries[i]) && z.t.deliveries[j].state == Leased
    requires n < |z.t.deliveries| && Companion(z.t.deliveries[i], z.t.deliveries[n])
    ensures Before(z.t, n, j) && z.t.deliveries[n].runtime.Some?
  {
    assert Bound(z.t, z.t.deliveries[n]);
    assert n in z.dispatches;
    assert Before(z.t, j, n) ==> Pair(z, j, n);
  }

  // ---------------------------------------------------------------- order within one work

  /** Once a delivery was leased, the earlier ones of its work in the lane are finished. */
  ghost predicate WorkInv(y: System)
  {
    && (forall c :: 0 <= c < |y.claims| ==> y.claims[c].index < |y.t.deliveries|)
    && (forall i: nat, c :: i < |y.t.deliveries| && 0 <= c < |y.claims| && WorkBefore(y.t, Standing(y.t, i), y.claims[c]) ==>
          y.t.deliveries[i].state in {Handled, Dead})
    && (forall a, b :: 0 <= a < b < |y.claims| ==> !WorkBefore(y.t, y.claims[b], y.claims[a]))
  }

  lemma {:induction false} ClaimKeepsWorkInv(y: System, i: nat, owner: nat, until: nat)
    requires WorkInv(y) && Enabled(y.t, Lease(i, owner, until))
    ensures WorkInv(Perform(y, Lease(i, owner, until)))
  {
    var z := Perform(y, Lease(i, owner, until));
    forall h: nat, c | h < |z.t.deliveries| && 0 <= c < |z.claims| && WorkBefore(z.t, Standing(z.t, h), z.claims[c])
      ensures z.t.deliveries[h].state in {Handled, Dead}
    {
      assert WorkBefore(y.t, Standing(y.t, h), z.claims[c]);
      if c < |y.claims| {
        assert WorkBefore(y.t, Standing(y.t, h), y.claims[c]);
      } else if Pending(y.t.deliveries[h].state) {
        HeadOvertakesOnlyPaused(y.t, h, i);
      } else {
        PendingOrFinished(y.t.deliveries[h].state);
      }
    }
    forall a, b | 0 <= a < b < |z.claims| ensures !WorkBefore(z.t, z.claims[b], z.claims[a]) {
      assert WorkBefore(z.t, z.claims[b], z.claims[a]) ==> WorkBefore(y.t, z.claims[b], z.claims[a]);
      if b == |y.claims| {
        assert z.claims[b] == Standing(y.t, i) && z.claims[a] == y.claims[a];
      }
    }
  }

  lemma {:induction false} OtherStepsKeepWorkInv(y: System, z: System)
    requires WorkInv(y) && z.claims == y.claims && z.t.cao == y.t.cao && |y.t.deliveries| <= |z.t.deliveries|
    requires forall k :: 0 <= k < |y.t.deliveries| ==>
      var d := z.t.deliveries[k];
      d == y.t.deliveries[k].(state := d.state, owner := d.owner, leaseUntil := d.leaseUntil, runtime := d.runtime)
    requires forall k :: 0 <= k < |y.t.deliveries| && y.t.deliveries[k].attachment.None? ==>
      || (y.t.deliveries[k].runtime == z.t.deliveries[k].runtime
          && (y.t.deliveries[k].state in {Handled, Dead} ==> z.t.deliveries[k].state in {Handled, Dead}))
      || !Passed(y, Standing(z.t, k))
    requires forall k, e :: |y.t.deliveries| <= k < |z.t.deliveries| && 0 <= e < |y.t.deliveries| ==>
      y.t.deliveries[e].recipient == z.t.deliveries[k].recipient ==> y.t.deliveries[e].sequence < z.t.deliveries[k].sequence
    ensures WorkInv(z)
  {
    forall i: nat, c | i < |z.t.deliveries| && 0 <= c < |z.claims| && WorkBefore(z.t, Standing(z.t, i), z.claims[c])
      ensures z.t.deliveries[i].state in {Handled, Dead}
    {
      assert i < |y.t.deliveries|;
      assert WorkBefore(y.t, Standing(z.t, i), y.claims[c]);
    }
    forall a, b | 0 <= a < b < |z.claims| ensures !WorkBefore(z.t, z.claims[b], z.claims[a]) {
      assert WorkBefore(z.t, z.claims[b], z.claims[a]) ==> WorkBefore(y.t, y.claims[b], y.claims[a]);
    }
  }

  lemma {:induction false} StepKeepsWorkInv(y: System, step: Step)
    requires WorkInv(y) && Enabled(y.t, step) && Careful(y, step)
    ensures WorkInv(Perform(y, step))
  {
    match step
    case Lease(i, owner, until) => ClaimKeepsWorkInv(y, i, owner, until);
    case Reactivate(_, _) => ReturnKeepsWorkInv(y, step);
    case Rebind(_, _) => ReturnKeepsWorkInv(y, step);
    case Enqueue(_) => OtherStepsKeepWorkInv(y, Perform(y, step));
    case _ => PlainStepKeepsWorkInv(y, step);
  }

  lemma {:induction false} ReturnKeepsWorkInv(y: System, step: Step)
    requires WorkInv(y) && Enabled(y.t, step) && Careful(y, step) && (step.Reactivate? || step.Rebind?)
    ensures WorkInv(Perform(y, step))
  {
    OtherStepsKeepWorkInv(y, Perform(y, step));
  }

  lemma {:induction false} PlainStepKeepsWorkInv(y: System, step: Step)
    requires WorkInv(y) && Enabled(y.t, step) && !step.Lease? && !step.Reactivate? && !step.Rebind? && !step.Enqueue?
    ensures WorkInv(Perform(y, step))
  {
    var z := Perform(y, step);
    PlainStep(y, step);
    OtherStepsKeepWorkInv(y, z);
  }

  lemma {:induction false} PlainStep(y: System, step: Step)
    requires Enabled(y.t, step) && !step.Lease? && !step.Reactivate? && !step.Rebind? && !step.Enqueue?
    ensures var z := Perform(y, step);
      && z.claims == y.claims && z.t.cao == y.t.cao && |z.t.deliveries| == |y.t.deliveries|
      && forall k :: 0 <= k < |y.t.deliveries| ==>
        var d := z.t.deliveries[k];
        && d == y.t.deliveries[k].(state := d.state, owner := d.owner, leaseUntil := d.leaseUntil)
        && (y.t.deliveries[k].state in {Handled, Dead} ==> d.state in {Handled, Dead})
  {
  }

  lemma {:induction false} RunKeepsWorkInv(trace: seq<System>, k: nat)
    requires Run(trace) && k < |trace|
    ensures WorkInv(trace[k])
  {
    if k > 0 {
      RunKeepsWorkInv(trace, k - 1);
      assert Follows(trace[k - 1], trace[k]);
      var step :| Enabled(trace[k - 1].t, step) && Careful(trace[k - 1], step) && trace[k] == Perform(trace[k - 1], step);
      StepKeepsWorkInv(trace[k - 1], step);
    }
  }

  /**
   * Across pause and resume, a delivery of a work is admitted only when every earlier one of the work
   * in the lane is finished; so the works' deliveries are leased in order, each again only before later ones.
   */
  lemma {:induction false} WorkClaimedInOrder(trace: seq<System>, k: nat, a: nat, b: nat, i: nat)
    requires Run(trace) && k < |trace| && a < b < |trace[k].claims|
    ensures !WorkBefore(trace[k].t, trace[k].claims[b], trace[k].claims[a])
    ensures i < |trace[k].t.deliveries| && WorkBefore(trace[k].t, Standing(trace[k].t, i), trace[k].claims[a]) ==>
      trace[k].t.deliveries[i].state in {Handled, Dead}
  {
    RunKeepsWorkInv(trace, k);
  }

  // ---------------------------------------------------------------- what the conditions are for

  /** A run without care: any enabled step. */
  ghost predicate FreeRun(trace: seq<System>)
  {
    && trace != [] && trace[0] == System(Tables([], {1}, {}, {}, 0), [], [])
    && forall k :: 0 <= k < |trace| - 1 ==> FreelyFollows(trace[k], trace[k + 1])
  }

  ghost predicate FreelyFollows(y: System, z: System)
  {
    exists step :: Enabled(y.t, step) && z == Perform(y, step)
  }

  lemma {:induction false} Extend(trace: seq<System>, step: Step) returns (more: seq<System>)
    requires FreeRun(trace) && Enabled(trace[|trace| - 1].t, step)
    ensures FreeRun(more) && more != [] && more[|more| - 1] == Perform(trace[|trace| - 1], step)
  {
    var next := Perform(trace[|trace| - 1], step);
    more := trace + [next];
    assert FreelyFollows(trace[|trace| - 1], next);
    forall k | 0 <= k < |more| - 1 ensures FreelyFollows(more[k], more[k + 1]) {
    }
  }

  function Wake(sequence: nat): Delivery
  {
    Delivery(1, Some(1), Some(1), None, sequence, Queued, None, None)
  }

  /** Two wakes of one attachment, the first dispatched under a lease that has run out, the second just leased. */
  lemma {:induction false} FirstLapsedSecondLeased() returns (trace: seq<System>)
    ensures FreeRun(trace)
    ensures trace[|trace| - 1] ==
      System(Tables([Wake(1).(state := Dispatched, owner := Some(7), leaseUntil := Some(10)),
                     Wake(2).(state := Leased, owner := Some(7), leaseUntil := Some(30))], {1}, {}, {}, 20), [0], [Claim(0, Some(1)), Claim(1, Some(1))])
  {
    trace := [System(Tables([], {1}, {}, {}, 0), [], [])];
    trace := Extend(trace, Enqueue(Wake(1)));
    trace := Extend(trace, Enqueue(Wake(2)));
    trace := Extend(trace, Lease(0, 7, 10));
    trace := Extend(trace, Dispatch(0));
    trace := Extend(trace, Tick(20));
    trace := Extend(trace, Lease(1, 7, 30));
  }

  /** Requeueing an overtaken dispatch, as after a start that provably did not happen, breaks the order. */
  lemma {:induction false} OvertakenRequeueBreaksOrder() returns (trace: seq<System>)
    ensures FreeRun(trace) && !InOrder(trace[|trace| - 1])
  {
    trace := FirstLapsedSecondLeased();
    trace := Extend(trace, Dispatch(1));
    trace := Extend(trace, Requeue(0));
    trace := Extend(trace, Lease(0, 7, 40));
    trace := Extend(trace, Dispatch(0));
    var y := trace[|trace| - 1];
    assert y.dispatches == [0, 1, 0] && Before(y.t, y.dispatches[2], y.dispatches[1]);
  }

  /** Dispatches of one owner share its token, so a busy runtime revives a lapsed one beside the newest. */
  lemma {:induction false} SharedOwnerRevivesALapsedDispatch() returns (trace: seq<System>)
    ensures FreeRun(trace) && |trace[|trace| - 1].t.deliveries| == 2
    ensures var t := trace[|trace| - 1].t; Live(t, t.deliveries[0]) && Live(t, t.deliveries[1]) && !LeaseRuns(t, t.deliveries[0])
  {
    trace := FirstLapsedSecondLeased();
    trace := Extend(trace, Dispatch(1));
    trace := Extend(trace, Busy(1));
    var t := trace[|trace| - 1].t;
    assert Companion(t.deliveries[0], t.deliveries[1]) && t.deliveries[1].owner == t.deliveries[0].owner;
    assert OwnsNewest(t, t.deliveries[0]);
  }
}
