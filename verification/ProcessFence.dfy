// dashboard_lifecycle.py: retiring the captured process groups before the rollback backup.
//
// The operating system is an adversary: between any two observations processes may exit, start,
// change group or reuse a PID. All it promises is that an audit token is never reused.
module ProcessFence {

  type Pid = nat

  /** A kernel audit token: the PID of the execution, its audit session and its PID version. */
  datatype Token = Token(pid: Pid, asid: nat, version: nat)

  datatype Process = Process(pid: Pid, pgid: Pid, uid: nat, token: Token)

  /** One instant: what runs, and which calls the kernel would fail. */
  datatype World = World(processes: set<Process>, unreadable: set<Token>, unlistable: set<Pid>, unsignalable: set<Token>)

  ghost predicate Alive(w: World, t: Token)
  {
    exists p :: p in w.processes && p.token == t
  }

  ghost function GroupPids(w: World, pgid: Pid): set<Pid>
  {
    set p | p in w.processes && p.pgid == pgid :: p.pid
  }

  /** Audit tokens are never reused: an execution that has gone never comes back. */
  ghost predicate Lawful(timeline: nat -> World)
  {
    forall t, a: nat, b: nat, c: nat ::
      a < b < c && Alive(timeline(a), t) && !Alive(timeline(b), t) ==> !Alive(timeline(c), t)
  }

  datatype Identity = Identity(pid: Pid, pgid: Pid, uid: nat, asid: nat, token: Token)

  datatype Group = Group(pgid: Pid, members: seq<Identity>)

  function MemberPids(g: Group): set<Pid>
  {
    set m | m in g.members :: m.pid
  }

  function Tokens(members: seq<Identity>): seq<Token>
  {
    if members == [] then [] else [members[0].token] + Tokens(members[1..])
  }

  function AllTokens(groups: seq<Group>): seq<Token>
  {
    if groups == [] then [] else Tokens(groups[0].members) + AllTokens(groups[1..])
  }

  datatype SignalValue = Term | Kill

  datatype UpgradeStep =
    | BootoutEdge | BootoutControlPlane
    | CheckEdgeUnloaded | CheckControlPlaneUnloaded
    | WaitForStopped | Backup
    | BootstrapControlPlane | WaitForControlPlane
    | BootstrapEdge | WaitForEdge
    | ReloadMcp

  /** What the controller did, in order. `at` is the instant of the observation or the effect. */
  datatype Event =
    | Probed(token: Token, live: bool, at: nat)
    | Listed(pgid: Pid, pids: set<Pid>, at: nat)
    | Signalled(token: Token, value: SignalValue, at: nat)
    | Performed(step: UpgradeStep, at: nat)

  datatype Error =
    | ProcessStateUnknown
    | GroupStateUnknown
    | GroupGainedUnknownMember
    | SignalOutcomeUnknown
    | StillAliveAfterEscalation
    | IdentityUnavailable
    | SharedProcessGroup
    | GroupIncomplete
    | GroupChanged
    | StepFailed(step: UpgradeStep)

  datatype Result<T> = Success(value: T) | Failure(error: Error)

  // ---------------------------------------------------------------- reading the log

  ghost predicate Foreign(e: Event, groups: seq<Group>)
  {
    e.Listed? && exists g :: g in groups && g.pgid == e.pgid && !(e.pids <= MemberPids(g))
  }

  /** Once a listing shows a process that was not captured, nothing more is done. */
  ghost predicate StopsAtForeign(log: seq<Event>, groups: seq<Group>)
  {
    forall i :: 0 <= i < |log| - 1 ==> !Foreign(log[i], groups)
  }

  ghost predicate NoForeign(log: seq<Event>, groups: seq<Group>)
  {
    forall i :: 0 <= i < |log| ==> !Foreign(log[i], groups)
  }

  /** The tokens that were sent `value`, in order. */
  function Sent(log: seq<Event>, value: SignalValue): seq<Token>
  {
    if log == [] then []
    else
      var last := log[|log| - 1];
      Sent(log[..|log| - 1], value) + (if last.Signalled? && last.value == value then [last.token] else [])
  }

  /** Observation only: no signal and no lifecycle effect. */
  ghost predicate Quiet(log: seq<Event>)
  {
    forall i :: 0 <= i < |log| ==> log[i].Probed? || log[i].Listed?
  }

  ghost predicate SeenDead(log: seq<Event>, t: Token, since: nat)
  {
    exists i :: 0 <= i < |log| && log[i].Probed? && log[i].token == t && !log[i].live && log[i].at >= since
  }

  ghost predicate SeenLive(log: seq<Event>, t: Token)
  {
    exists i :: 0 <= i < |log| && log[i].Probed? && log[i].token == t && log[i].live
  }

  ghost predicate SeenEmpty(log: seq<Event>, pgid: Pid, since: nat)
  {
    exists i :: 0 <= i < |log| && log[i].Listed? && log[i].pgid == pgid && log[i].pids == {} && log[i].at >= since
  }

  /** Since an instant, the group was seen empty and each captured execution was seen gone. */
  ghost predicate Retired(log: seq<Event>, g: Group, since: nat)
  {
    SeenEmpty(log, g.pgid, since) && forall k :: 0 <= k < |g.members| ==> SeenDead(log, g.members[k].token, since)
  }

  /** What the log says was seen is what was there at that instant. */
  ghost predicate TrueTo(log: seq<Event>, timeline: nat -> World)
  {
    forall i :: 0 <= i < |log| ==> TrueEvent(log[i], timeline)
  }

  ghost predicate TrueEvent(e: Event, timeline: nat -> World)
  {
    && (e.Probed? ==> (e.live <==> Alive(timeline(e.at), e.token)))
    && (e.Listed? ==> e.pids == GroupPids(timeline(e.at), e.pgid))
  }

  ghost predicate DistinctGroups(groups: seq<Group>)
  {
    forall i, j :: 0 <= i < j < |groups| ==> groups[i].pgid != groups[j].pgid
  }

  lemma {:induction false} SentAppends(a: seq<Event>, b: seq<Event>, value: SignalValue)
    ensures Sent(a + b, value) == Sent(a, value) + Sent(b, value)
    decreases |b|
  {
    if b == [] {
      assert a + b == a;
    } else {
      var front, last := b[..|b| - 1], b[|b| - 1];
      var tail := if last.Signalled? && last.value == value then [last.token] else [];
      SentAppends(a, front, value);
      assert (a + b)[..|a + b| - 1] == a + front && (a + b)[|a + b| - 1] == last;
      SeqAssociates(Sent(a, value), Sent(front, value), tail);
    }
  }

  lemma {:induction false} QuietSendsNothing(log: seq<Event>, value: SignalValue)
    requires Quiet(log)
    ensures Sent(log, value) == []
  {
    if log != [] {
      QuietSendsNothing(log[..|log| - 1], value);
    }
  }

  lemma {:induction false} SightingsStay(before: seq<Event>, more: seq<Event>, since: nat)
    ensures forall t :: SeenDead(before, t, since) ==> SeenDead(before + more, t, since)
    ensures forall t :: SeenLive(before, t) ==> SeenLive(before + more, t)
    ensures forall g :: SeenEmpty(before, g, since) ==> SeenEmpty(before + more, g, since)
  {
    assert forall i :: 0 <= i < |before| ==> (before + more)[i] == before[i];
  }

  lemma {:induction false} RetiredStays(log: seq<Event>, more: seq<Event>, g: Group, since: nat)
    requires Retired(log, g, since)
    ensures Retired(log + more, g, since)
  {
    SightingsStay(log, more, since);
  }

  ghost predicate LiveBefore(timeline: nat -> World, t: Token, instant: nat)
  {
    exists c: nat :: c < instant && Alive(timeline(c), t)
  }

  /** PID reuse does not matter: a captured execution seen gone is gone for good. */
  lemma {:induction false} RetiredIsDead(log: seq<Event>, timeline: nat -> World, g: Group, since: nat, now: nat)
    requires Lawful(timeline) && TrueTo(log, timeline) && Within(log, since, now) && Retired(log, g, since)
    requires forall m :: m in g.members ==> LiveBefore(timeline, m.token, since)
    ensures forall m, t: nat :: m in g.members && t >= now ==> !Alive(timeline(t), m.token)
  {
    forall m, t: nat | m in g.members && t >= now ensures !Alive(timeline(t), m.token) {
      var k :| 0 <= k < |g.members| && g.members[k] == m;
      assert SeenDead(log, m.token, since);
      var c: nat :| c < since && Alive(timeline(c), m.token);
    }
  }

  /** Probes of captured executions, then at most one listing of the group. */
  ghost predicate Observation(log: seq<Event>, pgid: Pid)
  {
    forall i :: 0 <= i < |log| ==> log[i].Probed? || (i == |log| - 1 && log[i].Listed? && log[i].pgid == pgid)
  }

  ghost predicate Within(log: seq<Event>, since: nat, until: nat)
  {
    forall i :: 0 <= i < |log| ==> since <= log[i].at < until
  }

  ghost predicate NoSignal(log: seq<Event>, value: SignalValue)
  {
    forall i :: 0 <= i < |log| ==> !(log[i].Signalled? && log[i].value == value)
  }

  ghost predicate NoEffect(log: seq<Event>)
  {
    forall i :: 0 <= i < |log| ==> !log[i].Performed?
  }

  ghost predicate TermBeforeKill(log: seq<Event>)
  {
    forall i, j :: 0 <= i < j < |log| && log[i].Signalled? && log[j].Signalled? && log[i].value == Kill ==> log[j].value == Kill
  }

  /** Each signal goes to an execution seen alive earlier in the same pass. */
  ghost predicate SignalsTheLiving(log: seq<Event>)
  {
    forall j: nat {:trigger SightedBefore(log, j)} :: j < |log| && log[j].Signalled? ==> SightedBefore(log, j)
  }

  ghost predicate SightedBefore(log: seq<Event>, j: nat)
    requires j < |log| && log[j].Signalled?
  {
    exists i :: 0 <= i < j && log[i].Probed? && log[i].token == log[j].token && log[i].live
  }

  /** A sighting of something still in the group. */
  ghost predicate Sees(e: Event, g: Group)
  {
    || (e.Probed? && e.live && exists k :: 0 <= k < |g.members| && g.members[k].token == e.token)
    || (e.Listed? && e.pgid == g.pgid && e.pids != {})
  }

  ghost predicate Occupied(log: seq<Event>, g: Group)
  {
    exists i :: 0 <= i < |log| && Sees(log[i], g)
  }

  ghost predicate Shot(log: seq<Event>, t: Token, value: SignalValue)
  {
    exists i :: 0 <= i < |log| && log[i].Signalled? && log[i].token == t && log[i].value == value
  }

  /** A signal pass over a group reached each captured execution, or saw it dead. */
  ghost predicate Dealt(log: seq<Event>, g: Group, value: SignalValue, since: nat)
  {
    forall k :: 0 <= k < |g.members| ==> Shot(log, g.members[k].token, value) || SeenDead(log, g.members[k].token, since)
  }

  /** The group was seen occupied after the last signal of the log. */
  ghost predicate OutlivesSignals(log: seq<Event>, g: Group)
  {
    exists i :: 0 <= i < |log| && Sees(log[i], g) && forall j :: i < j < |log| ==> !log[j].Signalled?
  }

  /** The signal at `j` follows, by at least `pause`, a TERM to the same execution. */
  ghost predicate TermedBefore(log: seq<Event>, j: nat, pause: nat)
    requires j < |log| && log[j].Signalled?
  {
    exists i :: 0 <= i < j && log[i].Signalled? && log[i].token == log[j].token && log[i].value == Term && log[i].at + pause <= log[j].at
  }

  /** An execution seen dead and seen alive again later: never true of a lawful system. */
  ghost predicate Revived(log: seq<Event>, t: Token)
  {
    exists d, i :: 0 <= d < i < |log| && log[d].Probed? && log[i].Probed? && log[d].token == t == log[i].token
      && !log[d].live && log[i].live && log[d].at < log[i].at
  }

  /** No execution is sent KILL without a TERM at least `pause` before. */
  ghost predicate KillsAreWarned(log: seq<Event>, pause: nat)
  {
    forall j: nat {:trigger TermedBefore(log, j, pause)} :: j < |log| && log[j].Signalled? && log[j].value == Kill ==> TermedBefore(log, j, pause)
  }

  /** Why an observation or a signal pass gave up, in terms of what the kernel did to it. */
  ghost predicate Fault(error: Error, timeline: nat -> World, groups: seq<Group>, log: seq<Event>, since: nat, until: nat)
  {
    match error
    case ProcessStateUnknown => exists t: nat, g, m :: since <= t < until && g in groups && m in g.members && m.token in timeline(t).unreadable
    case GroupStateUnknown => exists t: nat, g :: since <= t < until && g in groups && g.pgid in timeline(t).unlistable
    case GroupGainedUnknownMember => log != [] && Foreign(log[|log| - 1], groups)
    case SignalOutcomeUnknown => log != [] && var e := log[|log| - 1]; e.Signalled? && e.token in timeline(e.at).unsignalable
    case _ => false
  }

  lemma {:induction false} FaultLifts(error: Error, timeline: nat -> World, groups: seq<Group>, all: seq<Group>,
                                      before: seq<Event>, log: seq<Event>, since: nat, mid: nat, until: nat)
    requires Fault(error, timeline, groups, log, mid, until) && since <= mid
    requires forall g :: g in groups ==> g in all
    ensures Fault(error, timeline, all, before + log, since, until)
  {
    assert log != [] ==> (before + log)[|before + log| - 1] == log[|log| - 1];
  }

  lemma {:induction false} SightingsLift(a: seq<Event>, b: seq<Event>, g: Group)
    ensures Occupied(b, g) ==> Occupied(a + b, g)
    ensures Occupied(a, g) ==> Occupied(a + b, g)
    ensures OutlivesSignals(b, g) ==> OutlivesSignals(a + b, g)
    ensures Quiet(b) && Occupied(b, g) ==> OutlivesSignals(a + b, g)
  {
    assert forall i :: 0 <= i < |a| ==> (a + b)[i] == a[i];
    assert forall i :: 0 <= i < |b| ==> (a + b)[|a| + i] == b[i];
    if Occupied(b, g) {
      var i :| 0 <= i < |b| && Sees(b[i], g);
      assert Sees((a + b)[|a| + i], g);
    }
    if OutlivesSignals(b, g) {
      var i :| 0 <= i < |b| && Sees(b[i], g) && forall j :: i < j < |b| ==> !b[j].Signalled?;
      assert Sees((a + b)[|a| + i], g);
      assert forall j :: |a| + i < j < |a + b| ==> (a + b)[j] == b[j - |a|];
    }
  }

  ghost predicate DealtAll(log: seq<Event>, groups: seq<Group>, value: SignalValue, since: nat)
  {
    forall k :: 0 <= k < |groups| ==> Dealt(log, groups[k], value, since)
  }

  lemma {:induction false} DealtAllLifts(a: seq<Event>, b: seq<Event>, groups: seq<Group>, value: SignalValue, since: nat)
    requires DealtAll(a, groups, value, since)
    ensures DealtAll(a + b, groups, value, since)
  {
    forall k | 0 <= k < |groups| ensures Dealt(a + b, groups[k], value, since) {
      DealtLifts(a, b, groups[k], value, since, since);
    }
  }

  lemma {:induction false} DealtAllNext(a: seq<Event>, b: seq<Event>, groups: seq<Group>, i: nat, value: SignalValue, since: nat, mid: nat)
    requires i < |groups| && since <= mid
    requires DealtAll(a, groups[..i], value, since) && Dealt(b, groups[i], value, mid)
    ensures DealtAll(a + b, groups[..i + 1], value, since)
  {
    DealtAllLifts(a, b, groups[..i], value, since);
    DealtLifts(a, b, groups[i], value, since, mid);
    forall k | 0 <= k < i ensures Dealt(a + b, groups[k], value, since) {
      assert groups[..i][k] == groups[k];
    }
  }

  /** Every group of the list was seen occupied. */
  ghost predicate AllOccupied(log: seq<Event>, groups: seq<Group>)
  {
    forall k :: 0 <= k < |groups| ==> Occupied(log, groups[k])
  }

  ghost predicate AllOutlive(log: seq<Event>, groups: seq<Group>)
  {
    forall k :: 0 <= k < |groups| ==> OutlivesSignals(log, groups[k])
  }

  lemma {:induction false} AllOccupiedLifts(a: seq<Event>, b: seq<Event>, groups: seq<Group>)
    ensures AllOccupied(a, groups) || AllOccupied(b, groups) ==> AllOccupied(a + b, groups)
    ensures AllOccupied(b, groups) && Quiet(b) ==> AllOutlive(a + b, groups)
  {
    forall k | 0 <= k < |groups|
      ensures Occupied(a, groups[k]) || Occupied(b, groups[k]) ==> Occupied(a + b, groups[k])
      ensures Quiet(b) && Occupied(b, groups[k]) ==> OutlivesSignals(a + b, groups[k])
    {
      SightingsLift(a, b, groups[k]);
    }
  }

  lemma {:induction false} DealtLifts(a: seq<Event>, b: seq<Event>, g: Group, value: SignalValue, since: nat, mid: nat)
    requires since <= mid
    ensures Dealt(a, g, value, since) ==> Dealt(a + b, g, value, since)
    ensures Dealt(b, g, value, mid) ==> Dealt(a + b, g, value, since)
  {
    assert forall i :: 0 <= i < |a| ==> (a + b)[i] == a[i];
    assert forall i :: 0 <= i < |b| ==> (a + b)[|a| + i] == b[i];
    SightingsStay(a, b, since);
    if Dealt(b, g, value, mid) {
      forall k | 0 <= k < |g.members|
        ensures Shot(a + b, g.members[k].token, value) || SeenDead(a + b, g.members[k].token, since)
      {
        var t := g.members[k].token;
        if Shot(b, t, value) {
          var i :| 0 <= i < |b| && b[i].Signalled? && b[i].token == t && b[i].value == value;
          assert (a + b)[|a| + i].Signalled?;
        } else {
          var i :| 0 <= i < |b| && b[i].Probed? && b[i].token == t && !b[i].live && b[i].at >= mid;
          assert (a + b)[|a| + i].Probed?;
        }
      }
    }
  }

  // ---------------------------------------------------------------- the kernel's answers

  predicate AliveIn(w: World, t: Token)
    ensures AliveIn(w, t) <==> Alive(w, t)
  {
    exists p | p in w.processes :: p.token == t
  }

  function IsLive(w: World, t: Token): Result<bool>
  {
    if t in w.unreadable then Failure(ProcessStateUnknown) else Success(AliveIn(w, t))
  }

  function ListProcessGroup(w: World, pgid: Pid): (r: Result<set<Pid>>)
    ensures r.Success? ==> r.value == GroupPids(w, pgid)
  {
    if pgid in w.unlistable then Failure(GroupStateUnknown)
    else Success(set p | p in w.processes && p.pgid == pgid :: p.pid)
  }

  /** A signal by audit token; finding the execution already gone is not an error. */
  function SignalByToken(w: World, t: Token): Result<bool>
  {
    if t in w.unsignalable then Failure(SignalOutcomeUnknown) else Success(AliveIn(w, t))
  }

  lemma {:induction false} AppendNoForeign(a: seq<Event>, b: seq<Event>, groups: seq<Group>)
    requires NoForeign(a, groups)
    ensures StopsAtForeign(b, groups) ==> StopsAtForeign(a + b, groups)
    ensures NoForeign(b, groups) ==> NoForeign(a + b, groups) && StopsAtForeign(a + b, groups)
  {
  }

  // An observation that stayed within the captured members is not foreign to any group.
  lemma {:induction false} ObservationIsOwn(log: seq<Event>, g: Group, groups: seq<Group>)
    requires DistinctGroups(groups) && g in groups && Observation(log, g.pgid)
    ensures StopsAtForeign(log, groups)
    ensures (forall i :: 0 <= i < |log| && log[i].Listed? ==> log[i].pids <= MemberPids(g)) ==> NoForeign(log, groups)
  {
    forall h | h in groups && h.pgid == g.pgid ensures h == g {
      var i :| 0 <= i < |groups| && groups[i] == g;
      var j :| 0 <= j < |groups| && groups[j] == h;
    }
  }

  // ---------------------------------------------------------------- one observation

  datatype Sighting = Sighting(live: seq<Identity>, occupied: bool)

  /** A member not found alive was seen dead. */
  ghost predicate Accounted(members: seq<Identity>, live: seq<Identity>, log: seq<Event>, since: nat)
  {
    forall k :: 0 <= k < |members| ==> members[k] in live || SeenDead(log, members[k].token, since)
  }

  /** One probe per member, in order. */
  ghost predicate ProbesOf(members: seq<Identity>, probes: seq<Event>)
  {
    |members| == |probes| && forall i :: 0 <= i < |probes| ==> probes[i].Probed? && probes[i].token == members[i].token
  }

  /** The members whose probe said alive. */
  function LiveOf(members: seq<Identity>, probes: seq<Event>): seq<Identity>
    requires |members| == |probes|
    requires forall i :: 0 <= i < |probes| ==> probes[i].Probed?
  {
    if members == [] then []
    else if probes[0].live then [members[0]] + LiveOf(members[1..], probes[1..])
    else LiveOf(members[1..], probes[1..])
  }

  lemma {:induction false} LiveOfAppends(members: seq<Identity>, probes: seq<Event>, m: Identity, p: Event)
    requires |members| == |probes| && p.Probed?
    requires forall i :: 0 <= i < |probes| ==> probes[i].Probed?
    ensures LiveOf(members + [m], probes + [p]) == LiveOf(members, probes) + if p.live then [m] else []
  {
    if members != [] {
      LiveOfAppends(members[1..], probes[1..], m, p);
      assert (members + [m])[1..] == members[1..] + [m] && (probes + [p])[1..] == probes[1..] + [p];
    }
  }

  lemma {:induction false} TokensCons(m: Identity, rest: seq<Identity>)
    ensures multiset(Tokens([m] + rest)) == multiset{m.token} + multiset(Tokens(rest))
  {
    assert ([m] + rest)[1..] == rest;
  }

  lemma {:induction false} LiveOfTokens(members: seq<Identity>, probes: seq<Event>)
    requires ProbesOf(members, probes)
    ensures multiset(Tokens(LiveOf(members, probes))) <= multiset(Tokens(members))
  {
    if members != [] {
      LiveOfTokens(members[1..], probes[1..]);
      TokensCons(members[0], members[1..]);
      assert members == [members[0]] + members[1..];
      if probes[0].live {
        TokensCons(members[0], LiveOf(members[1..], probes[1..]));
      }
    }
  }

  lemma {:induction false} LiveOfAccounts(members: seq<Identity>, probes: seq<Event>, since: nat)
    requires ProbesOf(members, probes) && forall i :: 0 <= i < |probes| ==> probes[i].at >= since
    ensures forall k :: 0 <= k < |LiveOf(members, probes)| ==> SeenLive(probes, LiveOf(members, probes)[k].token)
    ensures Accounted(members, LiveOf(members, probes), probes, since)
  {
    if members != [] {
      var rest := LiveOf(members[1..], probes[1..]);
      LiveOfAccounts(members[1..], probes[1..], since);
      assert probes == [probes[0]] + probes[1..];
      assert forall i :: 0 <= i < |probes| - 1 ==> probes[1..][i] == probes[i + 1];
      forall t | SeenLive(probes[1..], t) ensures SeenLive(probes, t) {
        var i :| 0 <= i < |probes| - 1 && probes[1..][i].token == t && probes[1..][i].live;
        assert probes[i + 1].token == t;
      }
      forall k | 0 <= k < |members| && members[k] !in LiveOf(members, probes) ensures SeenDead(probes, members[k].token, since) {
        if k > 0 {
          assert members[1..][k - 1] == members[k];
          assert members[k] !in rest && Accounted(members[1..], rest, probes[1..], since);
          assert SeenDead(probes[1..], members[k].token, since);
          var i :| 0 <= i < |probes| - 1 && probes[1..][i].token == members[k].token && !probes[1..][i].live;
          assert probes[i + 1].token == members[k].token;
        }
      }
    }
  }

  method ProbeMembers(timeline: nat -> World, start: nat, members: seq<Identity>)
    returns (r: Result<seq<Identity>>, now: nat, ext: seq<Event>)
    ensures start <= now && Within(ext, start, now) && TrueTo(ext, timeline)
    ensures forall i :: 0 <= i < |ext| ==> ext[i].Probed?
    ensures r.Success? ==> ProbesOf(members, ext) && r.value == LiveOf(members, ext)
    ensures r.Failure? ==> r.error == ProcessStateUnknown && exists m :: m in members && now > start && m.token in timeline(now - 1).unreadable
  {
    now, ext := start, [];
    var live: seq<Identity> := [];
    for i := 0 to |members|
      invariant start <= now && Within(ext, start, now) && TrueTo(ext, timeline)
      invariant ProbesOf(members[..i], ext) && live == LiveOf(members[..i], ext)
    {
      var probe := IsLive(timeline(now), members[i].token);
      if probe.Failure? {
        return Failure(ProcessStateUnknown), now + 1, ext;
      }
      var event := Probed(members[i].token, probe.value, now);
      LiveOfAppends(members[..i], ext, members[i], event);
      assert members[..i + 1] == members[..i] + [members[i]];
      ext := ext + [event];
      if probe.value {
        live := live + [members[i]];
      }
      now := now + 1;
    }
    assert members[..|members|] == members;
    r := Success(live);
  }

  lemma {:induction false} UnreadableFault(group: Group, timeline: nat -> World, log: seq<Event>, since: nat, now: nat)
    requires exists m :: m in group.members && now > since && m.token in timeline(now - 1).unreadable
    ensures Fault(ProcessStateUnknown, timeline, [group], log, since, now)
  {
    assert group in [group];
  }

  lemma {:induction false} UnlistableFault(group: Group, timeline: nat -> World, log: seq<Event>, since: nat, now: nat)
    requires since <= now && group.pgid in timeline(now).unlistable
    ensures Fault(GroupStateUnknown, timeline, [group], log, since, now + 1)
  {
    assert group in [group];
  }

  lemma {:induction false} ForeignFault(group: Group, timeline: nat -> World, log: seq<Event>, since: nat, now: nat)
    requires log != [] && var e := log[|log| - 1]; e.Listed? && e.pgid == group.pgid && !(e.pids <= MemberPids(group))
    ensures Fault(GroupGainedUnknownMember, timeline, [group], log, since, now)
  {
    assert group in [group];
  }

  /** What an observation without fault establishes. */
  ghost predicate Observed(s: Sighting, group: Group, log: seq<Event>, since: nat)
  {
    && (forall i :: 0 <= i < |log| && log[i].Listed? ==> log[i].pids <= MemberPids(group))
    && multiset(Tokens(s.live)) <= multiset(Tokens(group.members))
    && (forall k :: 0 <= k < |s.live| ==> SeenLive(log, s.live[k].token))
    && Accounted(group.members, s.live, log, since)
    && (if s.occupied then Occupied(log, group) else s.live == [] && Retired(log, group, since))
  }

  // What the probes and then the listing of a group say together.
  lemma {:induction false} Looked(group: Group, probes: seq<Event>, listing: Event, live: seq<Identity>, since: nat)
    requires listing.Listed? && listing.pgid == group.pgid && listing.at >= since
    requires ProbesOf(group.members, probes) && live == LiveOf(group.members, probes)
    requires forall i :: 0 <= i < |probes| ==> probes[i].at >= since
    ensures listing.pids <= MemberPids(group)
      ==> Observed(Sighting(live, listing.pids != {} || live != []), group, probes + [listing], since)
  {
    LiveOfTokens(group.members, probes);
    LiveOfAccounts(group.members, probes, since);
    OnlyListing(probes, listing);
    LookedAfter(group, probes, listing, live, since);
    OccupiedIsSeen(group, probes, listing, live);
    NobodyIsSeen(group, probes, listing, live, since);
  }

  lemma {:induction false} OnlyListing(probes: seq<Event>, listing: Event)
    requires forall i :: 0 <= i < |probes| ==> probes[i].Probed?
    ensures forall i :: 0 <= i < |probes + [listing]| && (probes + [listing])[i].Listed? ==> (probes + [listing])[i] == listing
  {
  }

  lemma {:induction false} LookedAfter(group: Group, probes: seq<Event>, listing: Event, live: seq<Identity>, since: nat)
    requires Accounted(group.members, live, probes, since) && forall k :: 0 <= k < |live| ==> SeenLive(probes, live[k].token)
    ensures Accounted(group.members, live, probes + [listing], since)
    ensures forall k :: 0 <= k < |live| ==> SeenLive(probes + [listing], live[k].token)
  {
    SightingsStay(probes, [listing], since);
  }

  lemma {:induction false} NobodyIsSeen(group: Group, probes: seq<Event>, listing: Event, live: seq<Identity>, since: nat)
    requires listing.Listed? && listing.pgid == group.pgid && listing.at >= since && Accounted(group.members, live, probes, since)
    ensures listing.pids == {} && live == [] ==> Retired(probes + [listing], group, since)
  {
    SightingsStay(probes, [listing], since);
    assert (probes + [listing])[|probes|] == listing;
  }

  lemma {:induction false} OccupiedIsSeen(group: Group, probes: seq<Event>, listing: Event, live: seq<Identity>)
    requires listing.Listed? && listing.pgid == group.pgid && ProbesOf(group.members, probes)
    requires live != [] ==> SeenLive(probes, live[0].token)
    ensures listing.pids != {} || live != [] ==> Occupied(probes + [listing], group)
  {
    assert (probes + [listing])[|probes|] == listing;
    if listing.pids != {} {
      assert Sees((probes + [listing])[|probes|], group);
    } else if live != [] {
      OneSeen(group, probes, live);
      SightingsLift(probes, [listing], group);
    }
  }

  lemma {:induction false} LookEnds(probes: seq<Event>, listing: Event, timeline: nat -> World, since: nat)
    requires forall i :: 0 <= i < |probes| ==> probes[i].Probed?
    requires listing.Listed? && listing.at >= since && TrueEvent(listing, timeline)
    requires Within(probes, since, listing.at) && TrueTo(probes, timeline)
    ensures Within(probes + [listing], since, listing.at + 1) && TrueTo(probes + [listing], timeline)
    ensures Observation(probes + [listing], listing.pgid)
  {
  }

  lemma {:induction false} OneSeen(group: Group, probes: seq<Event>, live: seq<Identity>)
    requires ProbesOf(group.members, probes) && live != [] && SeenLive(probes, live[0].token)
    ensures Occupied(probes, group)
  {
    var i :| 0 <= i < |probes| && probes[i].Probed? && probes[i].token == live[0].token && probes[i].live;
    assert group.members[i].token == probes[i].token;
    assert Sees(probes[i], group);
  }

  /** Every captured execution is alive all along. */
  ghost predicate Steady(timeline: nat -> World, groups: seq<Group>, since: nat, until: nat)
  {
    forall t: nat, i, k :: since <= t < until && 0 <= i < |groups| && 0 <= k < |groups[i].members| ==>
      Alive(timeline(t), groups[i].members[k].token)
  }

  lemma {:induction false} AllLive(members: seq<Identity>, probes: seq<Event>)
    requires ProbesOf(members, probes) && forall i :: 0 <= i < |probes| ==> probes[i].live
    ensures LiveOf(members, probes) == members
  {
    if members != [] {
      AllLive(members[1..], probes[1..]);
      assert members == [members[0]] + members[1..];
    }
  }

  lemma {:induction false} SteadyLook(timeline: nat -> World, group: Group, probes: seq<Event>, since: nat, until: nat)
    requires ProbesOf(group.members, probes) && TrueTo(probes, timeline) && Within(probes, since, until)
    requires Steady(timeline, [group], since, until)
    ensures LiveOf(group.members, probes) == group.members
  {
    forall i | 0 <= i < |probes| ensures probes[i].live {
      assert TrueEvent(probes[i], timeline);
      assert [group][0].members[i].token == probes[i].token;
    }
    AllLive(group.members, probes);
  }

  lemma {:induction false} SteadyPart(timeline: nat -> World, groups: seq<Group>, i: nat, since: nat, mid: nat, until: nat, end: nat)
    requires i < |groups| && since <= mid && until <= end && Steady(timeline, groups, since, end)
    ensures Steady(timeline, [groups[i]], mid, until)
  {
  }

  /** Probe each captured execution, then list the group; anything else in it is an error. */
  method LiveMembers(timeline: nat -> World, start: nat, group: Group)
    returns (r: Result<Sighting>, now: nat, ext: seq<Event>)
    ensures start <= now && Within(ext, start, now) && TrueTo(ext, timeline) && Observation(ext, group.pgid)
    ensures r.Success? ==> Observed(r.value, group, ext, start)
    ensures r.Success? && Steady(timeline, [group], start, now) ==> r.value.live == group.members
    ensures r.Failure? ==> Fault(r.error, timeline, [group], ext, start, now)
  {
    var probed;
    probed, now, ext := ProbeMembers(timeline, start, group.members);
    if probed.Failure? {
      UnreadableFault(group, timeline, ext, start, now);
      return Failure(ProcessStateUnknown), now, ext;
    }
    ghost var probes := ext;
    var listing := ListProcessGroup(timeline(now), group.pgid);
    if listing.Failure? {
      UnlistableFault(group, timeline, ext, start, now);
      return Failure(GroupStateUnknown), now + 1, ext;
    }
    ghost var listed := Listed(group.pgid, listing.value, now);
    if Steady(timeline, [group], start, now + 1) {
      SteadyLook(timeline, group, probes, start, now + 1);
    }
    LookEnds(probes, listed, timeline, start);
    Looked(group, probes, listed, probed.value, start);
    ext := ext + [Listed(group.pgid, listing.value, now)];
    now := now + 1;
    if !(listing.value <= MemberPids(group)) {
      ForeignFault(group, timeline, ext, start, now);
      return Failure(GroupGainedUnknownMember), now, ext;
    }
    r := Success(Sighting(probed.value, listing.value != {} || probed.value != []));
  }


  // ---------------------------------------------------------------- waiting

  /** A stretch of the log: truthful, in its interval, and over once something foreign shows. */
  ghost predicate Trace(log: seq<Event>, timeline: nat -> World, since: nat, until: nat, all: seq<Group>)
  {
    since <= until && Within(log, since, until) && TrueTo(log, timeline) && StopsAtForeign(log, all)
  }

  lemma {:induction false} TraceAppends(a: seq<Event>, b: seq<Event>, timeline: nat -> World, since: nat, mid: nat, until: nat, all: seq<Group>)
    requires Trace(a, timeline, since, mid, all) && NoForeign(a, all) && Trace(b, timeline, mid, until, all)
    ensures Trace(a + b, timeline, since, until, all)
    ensures NoForeign(b, all) ==> NoForeign(a + b, all)
    ensures Quiet(a) && Quiet(b) ==> Quiet(a + b)
    ensures forall v :: NoSignal(a, v) && NoSignal(b, v) ==> NoSignal(a + b, v)
    ensures NoEffect(a) && NoEffect(b) ==> NoEffect(a + b)
    ensures SignalsTheLiving(a) && SignalsTheLiving(b) ==> SignalsTheLiving(a + b)
    ensures TermBeforeKill(a) && TermBeforeKill(b) && (NoSignal(a, Kill) || NoSignal(b, Term)) ==> TermBeforeKill(a + b)
  {
    AppendNoForeign(a, b, all);
    if SignalsTheLiving(a) && SignalsTheLiving(b) {
      forall j: nat | j < |a + b| && (a + b)[j].Signalled? ensures SightedBefore(a + b, j) {
        if j < |a| {
          assert SightedBefore(a, j);
          var i :| 0 <= i < j && a[i].Probed? && a[i].token == a[j].token && a[i].live;
          assert (a + b)[i] == a[i];
        } else {
          assert SightedBefore(b, j - |a|);
          var i :| 0 <= i < j - |a| && b[i].Probed? && b[i].token == b[j - |a|].token && b[i].live;
          assert (a + b)[|a| + i] == b[i];
        }
      }
    }
  }

  /** The groups with their flag up. */
  function Pick(groups: seq<Group>, flags: seq<bool>): seq<Group>
    requires |groups| == |flags|
  {
    if groups == [] then []
    else if flags[0] then [groups[0]] + Pick(groups[1..], flags[1..])
    else Pick(groups[1..], flags[1..])
  }

  lemma {:induction false} PickAppends(groups: seq<Group>, flags: seq<bool>, g: Group, flag: bool)
    requires |groups| == |flags|
    ensures Pick(groups + [g], flags + [flag]) == Pick(groups, flags) + if flag then [g] else []
  {
    if groups != [] {
      PickAppends(groups[1..], flags[1..], g, flag);
      assert (groups + [g])[1..] == groups[1..] + [g] && (flags + [flag])[1..] == flags[1..] + [flag];
    }
  }

  lemma {:induction false} PickIsPart(groups: seq<Group>, flags: seq<bool>)
    requires |groups| == |flags|
    ensures multiset(AllTokens(Pick(groups, flags))) <= multiset(AllTokens(groups))
    ensures forall g :: g in Pick(groups, flags) ==> g in groups
    ensures forall i :: 0 <= i < |groups| && flags[i] ==> groups[i] in Pick(groups, flags)
  {
    if groups != [] {
      PickIsPart(groups[1..], flags[1..]);
      AllTokensCons(groups[0], groups[1..]);
      assert groups == [groups[0]] + groups[1..];
      var rest := Pick(groups[1..], flags[1..]);
      if flags[0] {
        AllTokensCons(groups[0], rest);
      }
      forall i | 0 <= i < |groups| && flags[i] ensures groups[i] in Pick(groups, flags) {
        if i > 0 {
          assert groups[1..][i - 1] == groups[i] && flags[1..][i - 1];
        }
      }
    }
  }

  lemma {:induction false} AllTokensCons(g: Group, rest: seq<Group>)
    ensures multiset(AllTokens([g] + rest)) == multiset(Tokens(g.members)) + multiset(AllTokens(rest))
  {
    assert ([g] + rest)[1..] == rest;
  }

  /** Each group not kept was seen empty, with every captured member seen dead. */
  ghost predicate Swept(groups: seq<Group>, kept: seq<Group>, log: seq<Event>, since: nat)
  {
    && multiset(AllTokens(kept)) <= multiset(AllTokens(groups))
    && (forall g :: g in kept ==> g in groups)
    && (forall i :: 0 <= i < |groups| ==> groups[i] in kept || Retired(log, groups[i], since))
  }

  lemma {:induction false} SweptAgain(groups: seq<Group>, mid: seq<Group>, kept: seq<Group>, a: seq<Event>, b: seq<Event>, since: nat, later: nat)
    requires Swept(groups, mid, a, since) && Swept(mid, kept, b, later) && since <= later
    ensures Swept(groups, kept, a + b, since)
  {
    forall i | 0 <= i < |groups| ensures groups[i] in kept || Retired(a + b, groups[i], since) {
      if groups[i] in mid {
        var k :| 0 <= k < |mid| && mid[k] == groups[i];
        if mid[k] !in kept {
          RetiredLater(a, b, mid[k], since, later);
        }
      } else {
        RetiredStays(a, b, groups[i], since);
      }
    }
  }

  lemma {:induction false} RetiredLater(a: seq<Event>, b: seq<Event>, g: Group, since: nat, later: nat)
    requires Retired(b, g, later) && since <= later
    ensures Retired(a + b, g, since)
  {
    var e :| 0 <= e < |b| && b[e].Listed? && b[e].pgid == g.pgid && b[e].pids == {} && b[e].at >= later;
    assert (a + b)[|a| + e] == b[e];
    forall k | 0 <= k < |g.members| ensures SeenDead(a + b, g.members[k].token, since) {
      assert SeenDead(b, g.members[k].token, later);
      var d :| 0 <= d < |b| && b[d].Probed? && b[d].token == g.members[k].token && !b[d].live && b[d].at >= later;
      assert (a + b)[|a| + d] == b[d];
    }
  }

  /** A flag down means the group was seen to be gone. */
  ghost predicate Flagged(groups: seq<Group>, flags: seq<bool>, log: seq<Event>, since: nat)
  {
    |flags| == |groups| && forall k :: 0 <= k < |groups| && !flags[k] ==> Retired(log, groups[k], since)
  }

  lemma {:induction false} FlagNext(groups: seq<Group>, flags: seq<bool>, log: seq<Event>, g: Group, flag: bool, more: seq<Event>, since: nat, later: nat)
    requires Flagged(groups, flags, log, since) && since <= later
    requires !flag ==> Retired(more, g, later)
    ensures Flagged(groups + [g], flags + [flag], log + more, since)
  {
    forall k | 0 <= k < |groups| && !flags[k] ensures Retired(log + more, groups[k], since) {
      RetiredStays(log, more, groups[k], since);
    }
    if !flag {
      RetiredLater(log, more, g, since, later);
    }
  }

  lemma {:induction false} AllOccupiedJoin(log: seq<Event>, more: seq<Event>, groups: seq<Group>, g: Group)
    requires AllOccupied(log, groups) && Occupied(more, g)
    ensures AllOccupied(log + more, groups + [g])
  {
    AllOccupiedLifts(log, more, groups);
    SightingsLift(log, more, g);
  }

  /** A sweep after `i` groups. */
  ghost predicate Sweeping(groups: seq<Group>, i: nat, flags: seq<bool>, kept: seq<Group>, log: seq<Event>, since: nat)
  {
    && i <= |groups| && Flagged(groups[..i], flags, log, since)
    && kept == Pick(groups[..i], flags) && AllOccupied(log, kept)
  }

  lemma {:induction false} SweepNext(groups: seq<Group>, i: nat, flags: seq<bool>, kept: seq<Group>, log: seq<Event>, since: nat,
                                     s: Sighting, more: seq<Event>, later: nat)
    requires i < |groups| && since <= later
    requires Sweeping(groups, i, flags, kept, log, since) && Observed(s, groups[i], more, later)
    ensures Sweeping(groups, i + 1, flags + [s.occupied], kept + if s.occupied then [groups[i]] else [], log + more, since)
  {
    FlagNext(groups[..i], flags, log, groups[i], s.occupied, more, since, later);
    PickAppends(groups[..i], flags, groups[i], s.occupied);
    assert groups[..i + 1] == groups[..i] + [groups[i]];
    if s.occupied {
      AllOccupiedJoin(log, more, kept, groups[i]);
    } else {
      AllOccupiedLifts(log, more, kept);
    }
  }

  lemma {:induction false} SweepEnds(groups: seq<Group>, flags: seq<bool>, kept: seq<Group>, log: seq<Event>, since: nat)
    requires Sweeping(groups, |groups|, flags, kept, log, since)
    ensures Swept(groups, kept, log, since) && AllOccupied(log, kept)
  {
    assert groups[..|groups|] == groups;
    PickIsPart(groups, flags);
  }

  /** One round of a wait: observe every remaining group and keep the occupied ones. */
  method Sweep(timeline: nat -> World, start: nat, groups: seq<Group>, ghost all: seq<Group>)
    returns (r: Result<seq<Group>>, now: nat, ext: seq<Event>)
    requires DistinctGroups(all) && forall g :: g in groups ==> g in all
    ensures Trace(ext, timeline, start, now, all) && Quiet(ext)
    ensures r.Success? ==> NoForeign(ext, all) && Swept(groups, r.value, ext, start) && AllOccupied(ext, r.value)
    ensures r.Failure? ==> Fault(r.error, timeline, all, ext, start, now)
  {
    now, ext := start, [];
    var kept: seq<Group> := [];
    ghost var flags: seq<bool> := [];
    for i := 0 to |groups|
      invariant Trace(ext, timeline, start, now, all) && NoForeign(ext, all) && Quiet(ext)
      invariant Sweeping(groups, i, flags, kept, ext, start)
    {
      var seen, later, more := LiveMembers(timeline, now, groups[i]);
      ObservationIsOwn(more, groups[i], all);
      TraceAppends(ext, more, timeline, start, now, later, all);
      if seen.Failure? {
        FaultLifts(seen.error, timeline, [groups[i]], all, ext, more, start, now, later);
        return Failure(seen.error), later, ext + more;
      }
      SweepNext(groups, i, flags, kept, ext, start, seen.value, more, now);
      flags := flags + [seen.value.occupied];
      kept := kept + if seen.value.occupied then [groups[i]] else [];
      now, ext := later, ext + more;
    }
    SweepEnds(groups, flags, kept, ext, start);
    r := Success(kept);
  }

  /** How long a wait that gives up has slept: once between each two attempts. */
  function Patience(attempts: nat, interval: nat): nat
  {
    if attempts == 0 then 0 else (attempts - 1) * interval
  }

  lemma {:induction false} OneMorePause(attempts: nat, interval: nat)
    requires attempts >= 1
    ensures Patience(attempts + 1, interval) == Patience(attempts, interval) + interval
  {
    assert attempts * interval == (attempts - 1) * interval + interval;
  }

  /** `_wait`: poll until every group has gone or the attempts run out. */
  method Wait(timeline: nat -> World, start: nat, groups: seq<Group>, attempts: nat, interval: nat, ghost all: seq<Group>)
    returns (r: Result<seq<Group>>, now: nat, ext: seq<Event>)
    requires attempts >= 1
    requires DistinctGroups(all) && forall g :: g in groups ==> g in all
    ensures Trace(ext, timeline, start, now, all) && Quiet(ext)
    ensures r.Success? ==> NoForeign(ext, all) && Swept(groups, r.value, ext, start)
    ensures r.Success? && r.value != [] ==> now >= start + Patience(attempts, interval) && AllOccupied(ext, r.value)
    ensures r.Failure? ==> Fault(r.error, timeline, all, ext, start, now)
  {
    now, ext := start, [];
    var remaining := groups;
    for attempt := 0 to attempts
      invariant Trace(ext, timeline, start, now, all) && NoForeign(ext, all) && Quiet(ext)
      invariant Swept(groups, remaining, ext, start)
      invariant attempt > 0 ==> AllOccupied(ext, remaining)
      invariant now >= start + Patience(if attempt < attempts then attempt + 1 else attempts, interval)
    {
      var swept, later, more := Sweep(timeline, now, remaining, all);
      TraceAppends(ext, more, timeline, start, now, later, all);
      if swept.Failure? {
        FaultLifts(swept.error, timeline, all, all, ext, more, start, now, later);
        return Failure(swept.error), later, ext + more;
      }
      AllOccupiedLifts(ext, more, swept.value);
      SweptAgain(groups, remaining, swept.value, ext, more, start, now);
      remaining, now, ext := swept.value, later, ext + more;
      if remaining == [] {
        return Success([]), now, ext;
      }
      if attempt + 1 < attempts {
        OneMorePause(attempt + 1, interval);
        now := now + interval;
      }
    }
    r := Success(remaining);
  }

  // ---------------------------------------------------------------- signalling

  function Other(value: SignalValue): SignalValue
  {
    if value == Term then Kill else Term
  }

  /** A stretch that sends one kind of signal, only to the given executions, each seen alive first. */
  ghost predicate Volley(log: seq<Event>, value: SignalValue, tokens: seq<Token>)
  {
    && NoSignal(log, Other(value)) && NoEffect(log) && SignalsTheLiving(log)
    && multiset(Sent(log, value)) <= multiset(tokens)
  }

  lemma {:induction false} NoSignalSendsNothing(log: seq<Event>, value: SignalValue)
    requires NoSignal(log, value)
    ensures Sent(log, value) == []
  {
    if log != [] {
      NoSignalSendsNothing(log[..|log| - 1], value);
    }
  }

  lemma {:induction false} QuietIsHarmless(log: seq<Event>)
    requires Quiet(log)
    ensures forall v :: NoSignal(log, v) && Sent(log, v) == []
    ensures NoEffect(log) && SignalsTheLiving(log) && TermBeforeKill(log)
  {
    QuietSendsNothing(log, Term);
    QuietSendsNothing(log, Kill);
    forall v ensures Sent(log, v) == [] {
      if v == Term {
      } else {
        assert v == Kill;
      }
    }
  }

  lemma {:induction false} SentIsTokens(members: seq<Identity>, log: seq<Event>, value: SignalValue)
    requires |log| == |members|
    requires forall i :: 0 <= i < |log| ==> log[i].Signalled? && log[i].token == members[i].token && log[i].value == value
    ensures Sent(log, value) == Tokens(members)
    decreases |log|
  {
    if log != [] {
      var n := |log| - 1;
      SentIsTokens(members[..n], log[..n], value);
      TokensSnoc(members[..n], members[n]);
      assert members == members[..n] + [members[n]];
    }
  }

  lemma {:induction false} TokensSnoc(members: seq<Identity>, m: Identity)
    ensures Tokens(members + [m]) == Tokens(members) + [m.token]
  {
    if members == [] {
      assert (members + [m])[1..] == [];
    } else {
      TokensSnoc(members[1..], m);
      assert (members + [m])[1..] == members[1..] + [m];
    }
  }

  lemma {:induction false} AllTokensConcat(a: seq<Group>, b: seq<Group>)
    ensures AllTokens(a + b) == AllTokens(a) + AllTokens(b)
  {
    if a == [] {
      assert a + b == b;
      assert AllTokens(a) + AllTokens(b) == AllTokens(b);
    } else {
      AllTokensConcat(a[1..], b);
      assert (a + b)[1..] == a[1..] + b;
      SeqAssociates(Tokens(a[0].members), AllTokens(a[1..]), AllTokens(b));
    }
  }

  lemma {:induction false} SeqAssociates(a: seq<Token>, b: seq<Token>, c: seq<Token>)
    ensures a + (b + c) == (a + b) + c
  {
  }

  lemma {:induction false} AllTokensSnoc(groups: seq<Group>, g: Group)
    ensures AllTokens(groups + [g]) == AllTokens(groups) + Tokens(g.members)
  {
    AllTokensConcat(groups, [g]);
    assert AllTokens([g]) == Tokens(g.members) + [] == Tokens(g.members);
  }

  lemma {:induction false} PartOfSum(a: seq<Token>, b: seq<Token>, whole: seq<Token>)
    requires whole == a + b
    ensures multiset(a) <= multiset(whole)
  {
    assert multiset(a + b) == multiset(a) + multiset(b);
  }

  lemma {:induction false} AllTokensPrefix(groups: seq<Group>, i: nat)
    requires i <= |groups|
    ensures multiset(AllTokens(groups[..i])) <= multiset(AllTokens(groups))
  {
    assert groups == groups[..i] + groups[i..];
    AllTokensConcat(groups[..i], groups[i..]);
    PartOfSum(AllTokens(groups[..i]), AllTokens(groups[i..]), AllTokens(groups));
  }

  lemma {:induction false} TokensPrefix(members: seq<Identity>, i: nat)
    requires i <= |members|
    ensures multiset(Tokens(members[..i])) <= multiset(Tokens(members))
    decreases |members| - i
  {
    if i == |members| {
      assert members[..i] == members;
    } else {
      TokensPrefix(members, i + 1);
      TokensSnoc(members[..i], members[i]);
      assert members[..i + 1] == members[..i] + [members[i]];
    }
  }

  method SignalMembers(timeline: nat -> World, start: nat, members: seq<Identity>, value: SignalValue)
    returns (r: Result<()>, now: nat, ext: seq<Event>)
    ensures start <= now && Within(ext, start, now) && TrueTo(ext, timeline)
    ensures |ext| <= |members| && (r.Success? ==> |ext| == |members|)
    ensures forall i :: 0 <= i < |ext| ==> ext[i].Signalled? && ext[i].token == members[i].token && ext[i].value == value
    ensures r.Failure? ==> Fault(r.error, timeline, [], ext, start, now)
  {
    now, ext := start, [];
    for i := 0 to |members|
      invariant start <= now && |ext| == i && Within(ext, start, now) && TrueTo(ext, timeline)
      invariant forall k :: 0 <= k < i ==> ext[k].Signalled? && ext[k].token == members[k].token && ext[k].value == value
    {
      var sent := SignalByToken(timeline(now), members[i].token);
      ext := ext + [Signalled(members[i].token, value, now)];
      now := now + 1;
      if sent.Failure? {
        return Failure(SignalOutcomeUnknown), now, ext;
      }
    }
    r := Success(());
  }

  // An observation followed by signals to what it saw alive.
  lemma {:induction false} LookThenSignal(look: seq<Event>, shots: seq<Event>, s: Sighting, group: Group, value: SignalValue, since: nat)
    requires Quiet(look) && Observed(s, group, look, since) && |shots| <= |s.live|
    requires forall i :: 0 <= i < |shots| ==> shots[i].Signalled? && shots[i].token == s.live[i].token && shots[i].value == value
    ensures Volley(look + shots, value, Tokens(group.members))
    ensures |shots| == |s.live| ==> Dealt(look + shots, group, value, since)
  {
    forall i | 0 <= i < |shots| ensures SeenLive(look, shots[i].token) {
      assert shots[i].token == s.live[i].token;
    }
    ShotsFollowSightings(look, shots);
    ShotsAreOfOneKind(look, shots, value);
    ShotsAreCounted(look, shots, s.live, value);
    SubsetTransitive(Sent(look + shots, value), Tokens(s.live), Tokens(group.members));
    if |shots| == |s.live| {
      DealtNow(look, shots, s.live, group, value, since);
    }
  }

  lemma {:induction false} LookThenNothing(look: seq<Event>, group: Group, value: SignalValue)
    requires Quiet(look)
    ensures Volley(look, value, Tokens(group.members))
  {
    QuietIsHarmless(look);
  }

  lemma {:induction false} ShotsAreOfOneKind(look: seq<Event>, shots: seq<Event>, value: SignalValue)
    requires Quiet(look) && forall i :: 0 <= i < |shots| ==> shots[i].Signalled? && shots[i].value == value
    ensures NoSignal(look + shots, Other(value)) && NoEffect(look + shots)
  {
  }

  lemma {:induction false} SubsetTransitive(a: seq<Token>, b: seq<Token>, c: seq<Token>)
    requires multiset(a) <= multiset(b) <= multiset(c)
    ensures multiset(a) <= multiset(c)
  {
  }

  lemma {:induction false} ShotsAreCounted(look: seq<Event>, shots: seq<Event>, members: seq<Identity>, value: SignalValue)
    requires Quiet(look) && |shots| <= |members|
    requires forall i :: 0 <= i < |shots| ==> shots[i].Signalled? && shots[i].token == members[i].token && shots[i].value == value
    ensures multiset(Sent(look + shots, value)) <= multiset(Tokens(members))
  {
    QuietSendsNothing(look, value);
    SentAppends(look, shots, value);
    SentIsTokens(members[..|shots|], shots, value);
    TokensPrefix(members, |shots|);
    assert Sent(look + shots, value) == Sent(shots, value);
  }

  lemma {:induction false} ShotsAreAll(look: seq<Event>, shots: seq<Event>, members: seq<Identity>, value: SignalValue)
    requires Quiet(look) && |shots| == |members|
    requires forall i :: 0 <= i < |shots| ==> shots[i].Signalled? && shots[i].token == members[i].token && shots[i].value == value
    ensures Sent(look + shots, value) == Tokens(members)
  {
    QuietSendsNothing(look, value);
    SentAppends(look, shots, value);
    SentIsTokens(members, shots, value);
    assert [] + Tokens(members) == Tokens(members);
  }

  lemma {:induction false} ShotsFollowSightings(look: seq<Event>, shots: seq<Event>)
    requires Quiet(look)
    requires forall i :: 0 <= i < |shots| ==> shots[i].Signalled? && SeenLive(look, shots[i].token)
    ensures SignalsTheLiving(look + shots)
  {
    var log := look + shots;
    forall j: nat | j < |log| && log[j].Signalled? ensures SightedBefore(log, j) {
      assert SeenLive(look, shots[j - |look|].token);
      var i :| 0 <= i < |look| && look[i].Probed? && look[i].token == log[j].token && look[i].live;
      assert log[i] == look[i];
    }
  }

  lemma {:induction false} VolleyNext(log: seq<Event>, more: seq<Event>, groups: seq<Group>, g: Group, value: SignalValue, timeline: nat -> World,
                   since: nat, mid: nat, until: nat, all: seq<Group>)
    requires Volley(log, value, AllTokens(groups)) && Volley(more, value, Tokens(g.members))
    requires Trace(log, timeline, since, mid, all) && NoForeign(log, all) && Trace(more, timeline, mid, until, all)
    ensures Volley(log + more, value, AllTokens(groups + [g]))
  {
    TraceAppends(log, more, timeline, since, mid, until, all);
    SentAppends(log, more, value);
    AllTokensSnoc(groups, g);
  }

  lemma {:induction false} VolleyStep(log: seq<Event>, more: seq<Event>, groups: seq<Group>, i: nat, value: SignalValue, timeline: nat -> World,
                   since: nat, mid: nat, until: nat, all: seq<Group>)
    requires i < |groups| && Volley(log, value, AllTokens(groups[..i])) && Volley(more, value, Tokens(groups[i].members))
    requires Trace(log, timeline, since, mid, all) && NoForeign(log, all) && Trace(more, timeline, mid, until, all)
    ensures Volley(log + more, value, AllTokens(groups[..i + 1])) && Volley(log + more, value, AllTokens(groups))
  {
    VolleyNext(log, more, groups[..i], groups[i], value, timeline, since, mid, until, all);
    PrefixGrows(groups, i);
    VolleyWithin(log + more, value, groups, i + 1);
  }

  lemma {:induction false} PrefixGrows(groups: seq<Group>, i: nat)
    requires i < |groups|
    ensures groups[..i] + [groups[i]] == groups[..i + 1]
  {
  }

  lemma {:induction false} VolleyWithin(log: seq<Event>, value: SignalValue, groups: seq<Group>, i: nat)
    requires i <= |groups| && Volley(log, value, AllTokens(groups[..i]))
    ensures Volley(log, value, AllTokens(groups))
  {
    AllTokensPrefix(groups, i);
    SubsetTransitive(Sent(log, value), AllTokens(groups[..i]), AllTokens(groups));
  }

  lemma {:induction false} ShotsAreOwn(shots: seq<Event>, all: seq<Group>)
    requires forall i :: 0 <= i < |shots| ==> shots[i].Signalled?
    ensures NoForeign(shots, all) && StopsAtForeign(shots, all)
  {
  }

  lemma {:induction false} DealtNow(look: seq<Event>, shots: seq<Event>, live: seq<Identity>, group: Group, value: SignalValue, since: nat)
    requires |shots| == |live|
    requires forall i :: 0 <= i < |shots| ==> shots[i].Signalled? && shots[i].token == live[i].token && shots[i].value == value
    requires Accounted(group.members, live, look, since)
    ensures Dealt(look + shots, group, value, since)
  {
    SightingsStay(look, shots, since);
    forall k | 0 <= k < |group.members| && group.members[k] in live ensures Shot(look + shots, group.members[k].token, value) {
      var i :| 0 <= i < |live| && live[i] == group.members[k];
      assert (look + shots)[|look| + i] == shots[i];
    }
  }

  method SignalGroup(timeline: nat -> World, start: nat, group: Group, value: SignalValue, ghost all: seq<Group>)
    returns (r: Result<()>, now: nat, ext: seq<Event>)
    requires DistinctGroups(all) && group in all
    ensures Trace(ext, timeline, start, now, all) && Volley(ext, value, Tokens(group.members))
    ensures r.Success? ==> NoForeign(ext, all) && Dealt(ext, group, value, start)
    ensures r.Success? && Steady(timeline, [group], start, now) ==> Sent(ext, value) == Tokens(group.members)
    ensures r.Failure? ==> Fault(r.error, timeline, all, ext, start, now)
  {
    var seen;
    seen, now, ext := LiveMembers(timeline, start, group);
    ObservationIsOwn(ext, group, all);
    if seen.Failure? {
      LookThenNothing(ext, group, value);
      FaultLifts(seen.error, timeline, [group], all, [], ext, start, start, now);
      assert [] + ext == ext;
      return Failure(seen.error), now, ext;
    }
    var later, shots;
    r, later, shots := SignalMembers(timeline, now, seen.value.live, value);
    LookThenSignal(ext, shots, seen.value, group, value, start);
    if r.Success? {
      ShotsAreAll(ext, shots, seen.value.live, value);
    }
    ShotsAreOwn(shots, all);
    TraceAppends(ext, shots, timeline, start, now, later, all);
    if r.Failure? {
      FaultLifts(r.error, timeline, [], all, ext, shots, start, now, later);
    }
    now, ext := later, ext + shots;
  }

  lemma {:induction false} SteadyPass(timeline: nat -> World, groups: seq<Group>, i: nat, log: seq<Event>, more: seq<Event>, value: SignalValue,
                                      since: nat, mid: nat, until: nat)
    requires i < |groups| && since <= mid <= until && Steady(timeline, groups, since, until)
    requires Steady(timeline, groups, since, mid) ==> Sent(log, value) == AllTokens(groups[..i])
    requires Steady(timeline, [groups[i]], mid, until) ==> Sent(more, value) == Tokens(groups[i].members)
    ensures Sent(log + more, value) == AllTokens(groups[..i + 1])
  {
    SteadyPart(timeline, groups, i, since, mid, until, until);
    SentAppends(log, more, value);
    AllTokensSnoc(groups[..i], groups[i]);
    assert groups[..i + 1] == groups[..i] + [groups[i]];
  }

  /** `_signal_exact`: observe each group again and signal what is still alive in it. */
  method SignalExact(timeline: nat -> World, start: nat, groups: seq<Group>, value: SignalValue, ghost all: seq<Group>)
    returns (r: Result<()>, now: nat, ext: seq<Event>)
    requires DistinctGroups(all) && forall g :: g in groups ==> g in all
    ensures Trace(ext, timeline, start, now, all) && Volley(ext, value, AllTokens(groups))
    ensures r.Success? ==> NoForeign(ext, all) && DealtAll(ext, groups, value, start)
    ensures r.Success? && Steady(timeline, groups, start, now) ==> Sent(ext, value) == AllTokens(groups)
    ensures r.Failure? ==> Fault(r.error, timeline, all, ext, start, now)
  {
    now, ext := start, [];
    for i := 0 to |groups|
      invariant Trace(ext, timeline, start, now, all) && NoForeign(ext, all)
      invariant Volley(ext, value, AllTokens(groups[..i]))
      invariant DealtAll(ext, groups[..i], value, start)
      invariant Steady(timeline, groups, start, now) ==> Sent(ext, value) == AllTokens(groups[..i])
    {
      var sent, later, more := SignalGroup(timeline, now, groups[i], value, all);
      VolleyStep(ext, more, groups, i, value, timeline, start, now, later, all);
      TraceAppends(ext, more, timeline, start, now, later, all);
      if sent.Failure? {
        FaultLifts(sent.error, timeline, all, all, ext, more, start, now, later);
        return Failure(sent.error), later, ext + more;
      }
      DealtAllNext(ext, more, groups, i, value, start, now);
      if Steady(timeline, groups, start, later) {
        SteadyPass(timeline, groups, i, ext, more, value, start, now, later);
      }
      now, ext := later, ext + more;
    }
    assert groups[..|groups|] == groups;
    r := Success(());
  }

  /** Every signal of the log is at least `pause` in the past. */
  ghost predicate SignalsBy(log: seq<Event>, now: nat, pause: nat)
  {
    forall i :: 0 <= i < |log| && log[i].Signalled? ==> log[i].at + pause <= now
  }

  lemma {:induction false} VolleyThenQuiet(shots: seq<Event>, waited: seq<Event>, value: SignalValue, groups: seq<Group>,
                                           timeline: nat -> World, since: nat, mid: nat, until: nat, all: seq<Group>)
    requires Trace(shots, timeline, since, mid, all) && NoForeign(shots, all) && Volley(shots, value, AllTokens(groups))
    requires Trace(waited, timeline, mid, until, all) && Quiet(waited)
    ensures Trace(shots + waited, timeline, since, until, all) && Volley(shots + waited, value, AllTokens(groups))
    ensures NoForeign(waited, all) ==> NoForeign(shots + waited, all)
  {
    TraceAppends(shots, waited, timeline, since, mid, until, all);
    QuietIsHarmless(waited);
    SentAppends(shots, waited, value);
    assert Sent(shots + waited, value) == Sent(shots, value);
  }

  lemma {:induction false} EscalatedTo(groups: seq<Group>, kept: seq<Group>, value: SignalValue, shots: seq<Event>, waited: seq<Event>,
                                       since: nat, mid: nat, until: nat, pause: nat)
    requires since <= mid <= until && Within(shots, since, mid) && Quiet(waited)
    requires DealtAll(shots, groups, value, since) && Swept(groups, kept, waited, mid)
    requires kept != [] ==> until >= mid + pause && AllOccupied(waited, kept)
    ensures Swept(groups, kept, shots + waited, since) && DealtAll(shots + waited, groups, value, since)
    ensures kept != [] ==> SignalsBy(shots + waited, until, pause) && AllOutlive(shots + waited, kept)
  {
    SweptAgain(groups, groups, kept, shots, waited, since, mid);
    DealtAllLifts(shots, waited, groups, value, since);
    AllOccupiedLifts(shots, waited, kept);
  }

  /** One signal to every remaining group, then a wait. */
  method Escalate(timeline: nat -> World, start: nat, groups: seq<Group>, value: SignalValue, attempts: nat, interval: nat, ghost all: seq<Group>)
    returns (r: Result<seq<Group>>, now: nat, ext: seq<Event>)
    requires attempts >= 1
    requires DistinctGroups(all) && forall g :: g in groups ==> g in all
    ensures Trace(ext, timeline, start, now, all) && Volley(ext, value, AllTokens(groups))
    ensures r.Success? ==> NoForeign(ext, all) && Swept(groups, r.value, ext, start)
    ensures r.Success? ==> DealtAll(ext, groups, value, start)
    ensures r.Success? && r.value != [] ==> SignalsBy(ext, now, Patience(attempts, interval)) && AllOutlive(ext, r.value)
    ensures r.Failure? ==> Fault(r.error, timeline, all, ext, start, now)
  {
    var sent, mid, shots := SignalExact(timeline, start, groups, value, all);
    if sent.Failure? {
      return Failure(sent.error), mid, shots;
    }
    var waited;
    r, now, waited := Wait(timeline, mid, groups, attempts, interval, all);
    VolleyThenQuiet(shots, waited, value, groups, timeline, start, mid, now, all);
    ext := shots + waited;
    if r.Success? {
      EscalatedTo(groups, r.value, value, shots, waited, start, mid, now, Patience(attempts, interval));
    } else {
      FaultLifts(r.error, timeline, all, all, shots, waited, start, mid, now);
    }
  }

  /** No signal of the log is earlier than an instant. */
  ghost predicate SignalsFrom(log: seq<Event>, instant: nat)
  {
    forall i :: 0 <= i < |log| && log[i].Signalled? ==> log[i].at >= instant
  }

  lemma {:induction false} QuietIsPatient(log: seq<Event>, instant: nat, pause: nat)
    requires Quiet(log)
    ensures SignalsFrom(log, instant) && KillsFollow(log, pause)
  {
  }

  lemma {:induction false} SignalsFromAppends(a: seq<Event>, b: seq<Event>, instant: nat, mid: nat, until: nat)
    requires SignalsFrom(a, instant) && Within(b, mid, until) && instant <= mid
    ensures SignalsFrom(a + b, instant)
  {
  }

  lemma {:induction false} NoKillsFollow(log: seq<Event>, pause: nat)
    requires NoSignal(log, Kill)
    ensures KillsFollow(log, pause)
  {
  }

  /** KILL follows TERM by at least `pause`, unless the execution came back from the dead. */
  ghost predicate KillsFollow(log: seq<Event>, pause: nat)
  {
    forall j: nat {:trigger TermedBefore(log, j, pause)} ::
      j < |log| && log[j].Signalled? && log[j].value == Kill ==> TermedBefore(log, j, pause) || Revived(log, log[j].token)
  }

  /** Some group was dealt both signals and seen occupied after the last of them. */
  ghost predicate Stubborn(log: seq<Event>, groups: seq<Group>, since: nat)
  {
    exists g :: g in groups && Dealt(log, g, Term, since) && Dealt(log, g, Kill, since) && OutlivesSignals(log, g)
  }

  // What was sent a signal was captured in one of the groups.
  lemma {:induction false} ShotIsCaptured(log: seq<Event>, j: nat, value: SignalValue, groups: seq<Group>) returns (g: Group, k: nat)
    requires Volley(log, value, AllTokens(groups)) && j < |log| && log[j].Signalled? && log[j].value == value
    ensures g in groups && k < |g.members| && g.members[k].token == log[j].token
  {
    ShotIsSent(log, j, value);
    assert log[j].token in multiset(Sent(log, value));
    assert log[j].token in multiset(AllTokens(groups));
    g, k := OwnerOf(log[j].token, groups);
  }

  lemma {:induction false} ShotIsSent(log: seq<Event>, j: nat, value: SignalValue)
    requires j < |log| && log[j].Signalled? && log[j].value == value
    ensures log[j].token in Sent(log, value)
    decreases |log|
  {
    var n := |log| - 1;
    if j < n {
      assert log[..n][j] == log[j];
      ShotIsSent(log[..n], j, value);
    }
  }

  lemma {:induction false} OwnerOf(t: Token, groups: seq<Group>) returns (g: Group, k: nat)
    requires t in AllTokens(groups)
    ensures g in groups && k < |g.members| && g.members[k].token == t
  {
    if t in Tokens(groups[0].members) {
      g := groups[0];
      k := MemberOf(t, g.members);
    } else {
      g, k := OwnerOf(t, groups[1..]);
    }
  }

  lemma {:induction false} MemberOf(t: Token, members: seq<Identity>) returns (k: nat)
    requires t in Tokens(members)
    ensures k < |members| && members[k].token == t
  {
    if members[0].token == t {
      k := 0;
    } else {
      k := MemberOf(t, members[1..]);
      k := k + 1;
    }
  }

  // An execution killed was in a group that stayed, so the TERM pass had reached it or seen it dead.
  lemma {:induction false} KillsFollowTerms(before: seq<Event>, terms: seq<Event>, kills: seq<Event>, groups: seq<Group>, kept: seq<Group>,
                                            mid: nat, later: nat, until: nat, pause: nat)
    requires Quiet(before) && NoSignal(terms, Kill)
    requires Within(terms, mid, later) && Within(kills, later, until)
    requires DealtAll(terms, groups, Term, mid) && SignalsBy(terms, later, pause)
    requires Volley(kills, Kill, AllTokens(kept)) && forall g :: g in kept ==> g in groups
    ensures KillsFollow(before + terms + kills, pause)
  {
    var log := before + terms + kills;
    var base := |before| + |terms|;
    forall j: nat | j < |log| && log[j].Signalled? && log[j].value == Kill
      ensures TermedBefore(log, j, pause) || Revived(log, log[j].token)
    {
      KillIsLate(before, terms, kills, j);
      ReachedByTerm(terms, kills, groups, kept, j - base, mid);
      assert SightedBefore(kills, j - base);
      OneKillFollows(before, terms, kills, j - base, mid, later, until, pause);
    }
  }

  lemma {:induction false} KillIsLate(before: seq<Event>, terms: seq<Event>, kills: seq<Event>, j: nat)
    requires Quiet(before) && NoSignal(terms, Kill)
    requires j < |before + terms + kills|
    requires (before + terms + kills)[j].Signalled? && (before + terms + kills)[j].value == Kill
    ensures j >= |before| + |terms| && kills[j - |before| - |terms|] == (before + terms + kills)[j]
  {
    var log := before + terms + kills;
    assert forall i :: 0 <= i < |before| ==> log[i] == before[i];
    assert forall i :: 0 <= i < |terms| ==> log[|before| + i] == terms[i] && !(log[|before| + i].Signalled? && log[|before| + i].value == Kill);
    assert forall i :: |before| <= i < |before| + |terms| ==> log[i] == terms[i - |before|];
  }

  lemma {:induction false} ReachedByTerm(terms: seq<Event>, kills: seq<Event>, groups: seq<Group>, kept: seq<Group>, j: nat, mid: nat)
    requires DealtAll(terms, groups, Term, mid)
    requires Volley(kills, Kill, AllTokens(kept)) && forall g :: g in kept ==> g in groups
    requires j < |kills| && kills[j].Signalled? && kills[j].value == Kill
    ensures Shot(terms, kills[j].token, Term) || SeenDead(terms, kills[j].token, mid)
  {
    var g, k := ShotIsCaptured(kills, j, Kill, kept);
    var n :| 0 <= n < |groups| && groups[n] == g;
    assert Dealt(terms, groups[n], Term, mid);
  }

  lemma {:induction false} OneKillFollows(before: seq<Event>, terms: seq<Event>, kills: seq<Event>, j: nat, mid: nat, later: nat, until: nat, pause: nat)
    requires Within(terms, mid, later) && Within(kills, later, until) && SignalsBy(terms, later, pause)
    requires j < |kills| && kills[j].Signalled? && SightedBefore(kills, j)
    requires Shot(terms, kills[j].token, Term) || SeenDead(terms, kills[j].token, mid)
    ensures TermedBefore(before + terms + kills, |before| + |terms| + j, pause) || Revived(before + terms + kills, kills[j].token)
  {
    var log := before + terms + kills;
    var base := |before| + |terms|;
    var t := kills[j].token;
    if Shot(terms, t, Term) {
      var i :| 0 <= i < |terms| && terms[i].Signalled? && terms[i].token == t && terms[i].value == Term;
      assert log[|before| + i] == terms[i] && log[base + j] == kills[j];
    } else {
      var d :| 0 <= d < |terms| && terms[d].Probed? && terms[d].token == t && !terms[d].live;
      var i :| 0 <= i < j && kills[i].Probed? && kills[i].token == t && kills[i].live;
      assert log[|before| + d] == terms[d] && log[base + i] == kills[i];
    }
  }

  lemma {:induction false} GaveUp(before: seq<Event>, terms: seq<Event>, kills: seq<Event>, groups: seq<Group>, some: seq<Group>,
                                  fewer: seq<Group>, fewest: seq<Group>, since: nat, mid: nat, later: nat)
    requires since <= mid <= later && fewest != []
    requires forall g :: g in some ==> g in groups
    requires forall g :: g in fewer ==> g in some
    requires forall g :: g in fewest ==> g in fewer
    requires DealtAll(terms, some, Term, mid) && DealtAll(kills, fewer, Kill, later) && AllOutlive(kills, fewest)
    ensures Stubborn(before + terms + kills, groups, since)
  {
    var g := fewest[0];
    assert g in fewest && g in fewer && g in some && g in groups;
    var n :| 0 <= n < |some| && some[n] == g;
    var m :| 0 <= m < |fewer| && fewer[m] == g;
    assert Dealt(terms, some[n], Term, mid) && Dealt(kills, fewer[m], Kill, later) && OutlivesSignals(kills, fewest[0]);
    DealtLifts(before, terms, g, Term, since, mid);
    DealtLifts(before + terms, kills, g, Term, since, since);
    DealtLifts(before + terms, kills, g, Kill, since, later);
    SightingsLift(before + terms, kills, g);
  }

  /** On a lawful system, of executions alive when captured, no KILL goes out without its TERM. */
  lemma {:induction false} KillsAreAllWarned(log: seq<Event>, timeline: nat -> World, groups: seq<Group>, since: nat, until: nat, pause: nat)
    requires Lawful(timeline) && TrueTo(log, timeline) && Within(log, since, until)
    requires LiveAtCapture(groups, timeline, since)
    requires multiset(Sent(log, Kill)) <= multiset(AllTokens(groups))
    requires KillsFollow(log, pause)
    ensures KillsAreWarned(log, pause)
  {
    forall j: nat | j < |log| && log[j].Signalled? && log[j].value == Kill ensures TermedBefore(log, j, pause) {
      var t := log[j].token;
      ShotIsSent(log, j, Kill);
      assert t in multiset(Sent(log, Kill)) && t in multiset(AllTokens(groups));
      var g, k := OwnerOf(t, groups);
      assert LiveBefore(timeline, g.members[k].token, since);
      NeverRevived(log, timeline, t, since, until);
    }
  }

  lemma {:induction false} NeverRevived(log: seq<Event>, timeline: nat -> World, t: Token, since: nat, until: nat)
    requires Lawful(timeline) && TrueTo(log, timeline) && Within(log, since, until) && LiveBefore(timeline, t, since)
    ensures !Revived(log, t)
  {
    var c: nat :| c < since && Alive(timeline(c), t);
    forall d, i | 0 <= d < i < |log| && log[d].Probed? && log[i].Probed? && log[d].token == t == log[i].token
        && !log[d].live && log[d].at < log[i].at
      ensures !log[i].live
    {
      assert TrueEvent(log[d], timeline) && TrueEvent(log[i], timeline);
      assert !Alive(timeline(log[d].at), t);
      assert c < log[d].at < log[i].at;
    }
  }

  /**
   * `fence_after_bootout`: wait, TERM, wait, KILL, wait. However the run ends, only captured
   * executions are signalled, each no more often per signal than it was captured, TERM before
   * KILL, each seen alive first; and nothing is done after a listing shows anything foreign.
   * A normal return means every group was seen empty and every captured execution seen dead.
   * No signal is sent before a whole wait has passed, and KILL goes only to an execution that was
   * sent TERM a whole wait earlier. Giving up means that some group got both signals and was still
   * seen occupied after them; every other failure is a fault of the kernel or a foreign process.
   */
  method FenceAfterBootout(timeline: nat -> World, start: nat, groups: seq<Group>, attempts: nat, interval: nat)
    returns (r: Result<()>, now: nat, ext: seq<Event>)
    requires attempts >= 1 && DistinctGroups(groups)
    ensures Trace(ext, timeline, start, now, groups)
    ensures multiset(Sent(ext, Term)) <= multiset(AllTokens(groups))
    ensures multiset(Sent(ext, Kill)) <= multiset(AllTokens(groups))
    ensures TermBeforeKill(ext) && SignalsTheLiving(ext) && NoEffect(ext)
    ensures r.Success? ==> forall g :: g in groups ==> Retired(ext, g, start)
    ensures r.Success? ==> NoForeign(ext, groups)
    ensures SignalsFrom(ext, start + Patience(attempts, interval))
    ensures KillsFollow(ext, Patience(attempts, interval))
    ensures r.Failure? ==> Fault(r.error, timeline, groups, ext, start, now) || (r.error.StillAliveAfterEscalation? && Stubborn(ext, groups, start))
  {
    var remaining;
    remaining, now, ext := Wait(timeline, start, groups, attempts, interval, groups);
    QuietIsHarmless(ext);
    QuietIsPatient(ext, start + Patience(attempts, interval), Patience(attempts, interval));
    if remaining.Failure? {
      return Failure(remaining.error), now, ext;
    }
    if remaining.value == [] {
      return Success(()), now, ext;
    }
    ghost var waited := ext;
    var termed, later, volley := Escalate(timeline, now, remaining.value, Term, attempts, interval, groups);
    JoinVolley(ext, volley, Term, groups, remaining.value, timeline, start, now, later);
    SignalsFromAppends(ext, volley, start + Patience(attempts, interval), now, later);
    NoKillsFollow(ext + volley, Patience(attempts, interval));
    if termed.Failure? {
      FaultLifts(termed.error, timeline, groups, groups, ext, volley, start, now, later);
      return Failure(termed.error), later, ext + volley;
    }
    SweptAgain(groups, remaining.value, termed.value, ext, volley, start, now);
    ghost var warned := now;
    ext, now := ext + volley, later;
    if termed.value == [] {
      return Success(()), now, ext;
    }
    var killed, end, last := Escalate(timeline, now, termed.value, Kill, attempts, interval, groups);
    JoinVolley(ext, last, Kill, groups, termed.value, timeline, start, now, end);
    SignalsFromAppends(ext, last, start + Patience(attempts, interval), now, end);
    KillsFollowTerms(waited, volley, last, remaining.value, termed.value, warned, now, end, Patience(attempts, interval));
    if killed.Failure? {
      FaultLifts(killed.error, timeline, groups, groups, ext, last, start, now, end);
      return Failure(killed.error), end, ext + last;
    }
    SweptAgain(groups, termed.value, killed.value, ext, last, start, now);
    if killed.value != [] {
      GaveUp(waited, volley, last, groups, remaining.value, termed.value, killed.value, start, warned, now);
      return Failure(StillAliveAfterEscalation), end, ext + last;
    }
    ext, now := ext + last, end;
    r := Success(());
  }

  lemma {:induction false} JoinVolley(log: seq<Event>, volley: seq<Event>, value: SignalValue, all: seq<Group>, groups: seq<Group>,
                   timeline: nat -> World, since: nat, mid: nat, until: nat)
    requires Trace(log, timeline, since, mid, all) && NoForeign(log, all) && Trace(volley, timeline, mid, until, all)
    requires NoSignal(log, value) && NoSignal(log, Kill) && NoEffect(log) && SignalsTheLiving(log)
    requires Volley(volley, value, AllTokens(groups)) && multiset(AllTokens(groups)) <= multiset(AllTokens(all))
    requires multiset(Sent(log, Other(value))) <= multiset(AllTokens(all))
    ensures Trace(log + volley, timeline, since, until, all) && (NoForeign(volley, all) ==> NoForeign(log + volley, all))
    ensures multiset(Sent(log + volley, value)) <= multiset(AllTokens(all))
    ensures multiset(Sent(log + volley, Other(value))) <= multiset(AllTokens(all))
    ensures TermBeforeKill(log + volley) && SignalsTheLiving(log + volley) && NoEffect(log + volley)
    ensures value == Term ==> NoSignal(log + volley, Kill)
  {
    TraceAppends(log, volley, timeline, since, mid, until, all);
    VolleyCounts(log, volley, value);
    OneKindOfSignal(volley, value);
  }

  lemma {:induction false} VolleyCounts(log: seq<Event>, volley: seq<Event>, value: SignalValue)
    requires NoSignal(log, value) && NoSignal(volley, Other(value))
    ensures Sent(log + volley, value) == Sent(volley, value)
    ensures Sent(log + volley, Other(value)) == Sent(log, Other(value))
  {
    NoSignalSendsNothing(log, value);
    NoSignalSendsNothing(volley, Other(value));
    SentAppends(log, volley, value);
    SentAppends(log, volley, Other(value));
  }

  lemma {:induction false} OneKindOfSignal(log: seq<Event>, value: SignalValue)
    requires NoSignal(log, Other(value))
    ensures TermBeforeKill(log)
    ensures value == Kill ==> NoSignal(log, Term)
    ensures value == Term ==> NoSignal(log, Kill)
  {
  }

  // ---------------------------------------------------------------- capture

  /** A PID with no process, or with one that is not this user's in this audit session. */
  ghost predicate Unidentifiable(w: World, pid: Pid, asid: nat, uid: nat)
  {
    || (forall p :: p in w.processes ==> p.pid != pid)
    || (exists p :: p in w.processes && p.pid == pid && (p.token.pid != pid || p.token.asid != asid || p.token.version == 0 || p.uid != uid))
  }

  ghost predicate CannotCapture(timeline: nat -> World, pid: Pid, asid: nat, uid: nat)
  {
    pid <= 1 || asid == 0 || exists t: nat :: Unidentifiable(timeline(t), pid, asid, uid)
  }

  /** A PID was found running in a process group. */
  ghost predicate RanIn(timeline: nat -> World, pid: Pid, pgid: Pid)
  {
    exists t: nat, p :: p in timeline(t).processes && p.pid == pid && p.pgid == pgid
  }

  ghost predicate Mentions(log: seq<Event>, pgid: Pid, pid: Pid)
  {
    exists i :: 0 <= i < |log| && log[i].Listed? && log[i].pgid == pgid && pid in log[i].pids
  }

  ghost predicate ListingsDiffer(log: seq<Event>, pgid: Pid)
  {
    exists i, j :: 0 <= i < j < |log| && log[i].Listed? && log[j].Listed? && log[i].pgid == pgid == log[j].pgid && log[i].pids != log[j].pids
  }

  /** Why the capture of one service failed. */
  ghost predicate CaptureStopped(error: Error, log: seq<Event>, timeline: nat -> World, root: Pid, asid: nat, uid: nat)
  {
    match error
    case IdentityUnavailable => CannotCapture(timeline, root, asid, uid) || exists q :: Mentions(log, root, q) && CannotCapture(timeline, q, asid, uid)
    case SharedProcessGroup => exists pgid :: pgid != root && RanIn(timeline, root, pgid)
    case GroupStateUnknown => exists t: nat :: root in timeline(t).unlistable
    case GroupIncomplete => exists i :: 0 <= i < |log| && log[i].Listed? && log[i].pgid == root && root !in log[i].pids
    case ProcessStateUnknown => exists t: nat, m: Token :: m in timeline(t).unreadable
    case GroupChanged =>
      || ListingsDiffer(log, root)
      || (exists q, pgid :: Mentions(log, root, q) && pgid != root && RanIn(timeline, q, pgid))
      || (exists i :: 0 <= i < |log| && log[i].Probed? && !log[i].live)
    case _ => false
  }

  lemma {:induction false} CaptureStoppedLifts(error: Error, before: seq<Event>, log: seq<Event>, after: seq<Event>, timeline: nat -> World,
                                               root: Pid, asid: nat, uid: nat)
    requires CaptureStopped(error, log, timeline, root, asid, uid)
    ensures CaptureStopped(error, before + log + after, timeline, root, asid, uid)
  {
    var whole := before + log + after;
    assert forall i :: 0 <= i < |log| ==> whole[|before| + i] == log[i];
    forall q | Mentions(log, root, q) ensures Mentions(whole, root, q) {
      var i :| 0 <= i < |log| && log[i].Listed? && log[i].pgid == root && q in log[i].pids;
      assert whole[|before| + i] == log[i];
    }
    if error.GroupIncomplete? {
      var i :| 0 <= i < |log| && log[i].Listed? && log[i].pgid == root && root !in log[i].pids;
      assert whole[|before| + i] == log[i];
    } else if error.GroupChanged? && ListingsDiffer(log, root) {
      var i, j :| 0 <= i < j < |log| && log[i].Listed? && log[j].Listed? && log[i].pgid == root == log[j].pgid && log[i].pids != log[j].pids;
      assert whole[|before| + i] == log[i] && whole[|before| + j] == log[j];
    } else if error.GroupChanged? && exists i :: 0 <= i < |log| && log[i].Probed? && !log[i].live {
      var i :| 0 <= i < |log| && log[i].Probed? && !log[i].live;
      assert whole[|before| + i] == log[i];
    }
  }

  /** The audit token of a PID is read first, its process metadata one instant later. */
  method CaptureProcess(timeline: nat -> World, start: nat, pid: Pid, expectedAsid: nat, uid: nat) returns (r: Result<Identity>, now: nat)
    ensures now >= start
    ensures r.Success? ==> pid > 1 && r.value.pid == pid && r.value.token.pid == pid
    ensures r.Success? ==> r.value.uid == uid && r.value.asid == expectedAsid && r.value.token.asid == expectedAsid
    ensures r.Success? ==> RanIn(timeline, pid, r.value.pgid)
    ensures r.Failure? ==> r.error == IdentityUnavailable && CannotCapture(timeline, pid, expectedAsid, uid)
  {
    now := start;
    if pid <= 1 || expectedAsid == 0 {
      return Failure(IdentityUnavailable), now;
    }
    if p :| p in timeline(now).processes && p.pid == pid {
      var token := p.token;
      now := now + 1;
      if q :| q in timeline(now).processes && q.pid == pid {
        if token.pid != pid || token.asid != expectedAsid || token.version == 0 || q.uid != uid {
          assert Unidentifiable(timeline(now - 1), pid, expectedAsid, uid) || Unidentifiable(timeline(now), pid, expectedAsid, uid);
          return Failure(IdentityUnavailable), now;
        }
        return Success(Identity(pid, q.pgid, q.uid, token.asid, token)), now;
      }
    }
    assert Unidentifiable(timeline(now), pid, expectedAsid, uid);
    return Failure(IdentityUnavailable), now;
  }

  /** What a successful capture has established by the time it returns. */
  ghost predicate Captured(g: Group, log: seq<Event>)
  {
    && (forall i, j :: 0 <= i < j < |g.members| ==> g.members[i].token != g.members[j].token)
    && (forall i :: 0 <= i < |g.members| ==> g.members[i].pgid == g.pgid && SeenLive(log, g.members[i].token))
    && (exists i :: 0 <= i < |log| && log[i].Listed? && log[i].pgid == g.pgid && log[i].pids == MemberPids(g))
  }

  /** The group holds its root, and only executions of this user in this audit session. */
  ghost predicate OfSession(g: Group, root: Pid, asid: nat, uid: nat)
  {
    root in MemberPids(g) && forall m :: m in g.members ==> m.uid == uid && m.asid == asid == m.token.asid
  }

  method CaptureMembers(timeline: nat -> World, start: nat, pids: set<Pid>, root: Identity, asid: nat, uid: nat)
    returns (r: Result<seq<Identity>>, now: nat)
    requires root.token.pid == root.pid && root.uid == uid && root.asid == asid == root.token.asid && RanIn(timeline, root.pid, root.pgid)
    ensures now >= start
    ensures r.Success? ==> forall m :: m in r.value ==> m.uid == uid && m.asid == asid == m.token.asid && RanIn(timeline, m.pid, m.pgid)
    ensures r.Failure? ==> r.error == IdentityUnavailable && exists q :: q in pids && CannotCapture(timeline, q, asid, uid)
    ensures r.Success? ==> (set m | m in r.value :: m.pid) == pids
    ensures r.Success? ==> forall i :: 0 <= i < |r.value| ==> r.value[i].token.pid == r.value[i].pid
    ensures r.Success? ==> forall i, j :: 0 <= i < j < |r.value| ==> r.value[i].pid != r.value[j].pid
  {
    now := start;
    var members: seq<Identity> := [];
    var rest := pids;
    while rest != {}
      invariant now >= start && rest <= pids
      invariant (set m | m in members :: m.pid) == pids - rest
      invariant forall m :: m in members ==> m.uid == uid && m.asid == asid == m.token.asid && RanIn(timeline, m.pid, m.pgid)
      invariant forall i :: 0 <= i < |members| ==> members[i].token.pid == members[i].pid
      invariant forall i, j :: 0 <= i < j < |members| ==> members[i].pid != members[j].pid
      decreases rest
    {
      var pid :| pid in rest;
      var member := root;
      if pid != root.pid {
        var captured;
        captured, now := CaptureProcess(timeline, now, pid, asid, uid);
        if captured.Failure? {
          return Failure(captured.error), now;
        }
        member := captured.value;
      }
      forall i | 0 <= i < |members| ensures members[i].pid != pid {
        assert members[i].pid in (set m | m in members :: m.pid);
      }
      assert (set m | m in members + [member] :: m.pid) == (set m | m in members :: m.pid) + {pid};
      members := members + [member];
      rest := rest - {pid};
    }
    r := Success(members);
  }

  /**
   * `capture`: the members listed, each captured, the same members listed again, and each seen
   * alive. Within one group no execution is captured twice, because a token names its PID.
   */
  method Capture(timeline: nat -> World, start: nat, pid: Pid, asid: nat, uid: nat)
    returns (r: Result<Group>, now: nat, ext: seq<Event>)
    ensures start <= now && Within(ext, start, now) && TrueTo(ext, timeline) && Quiet(ext)
    ensures r.Success? ==> r.value.pgid == pid && Captured(r.value, ext) && OfSession(r.value, pid, asid, uid)
    ensures r.Failure? ==> CaptureStopped(r.error, ext, timeline, pid, asid, uid)
  {
    var root;
    root, now := CaptureProcess(timeline, start, pid, asid, uid);
    if root.Failure? {
      return Failure(root.error), now, [];
    }
    if root.value.pgid != root.value.pid {
      return Failure(SharedProcessGroup), now, [];
    }
    var listed, middle;
    listed, middle, ext := CaptureListed(timeline, now, pid, root.value, asid, uid);
    if listed.Failure? {
      return Failure(listed.error), middle, ext;
    }
    ghost var listings := ext;
    var members := listed.value;
    var live, later, probes := ProbeMembers(timeline, middle, members);
    CapturedAfter(ext, probes, members, pid);
    now, ext := later, ext + probes;
    if live.Failure? {
      return Failure(live.error), now, ext;
    }
    if live.value != members {
      SomeoneDied(listings, probes, members, timeline, pid, asid, uid);
      return Failure(GroupChanged), now, ext;
    }
    LiveOfAccounts(members, probes, start);
    r := Success(Group(pid, members));
  }

  lemma {:induction false} SomeoneDied(listings: seq<Event>, probes: seq<Event>, members: seq<Identity>, timeline: nat -> World,
                                       pid: Pid, asid: nat, uid: nat)
    requires ProbesOf(members, probes) && LiveOf(members, probes) != members
    ensures CaptureStopped(GroupChanged, listings + probes, timeline, pid, asid, uid)
  {
    var i := FirstDead(members, probes);
    assert (listings + probes)[|listings| + i] == probes[i];
  }

  lemma {:induction false} FirstDead(members: seq<Identity>, probes: seq<Event>) returns (i: nat)
    requires ProbesOf(members, probes) && LiveOf(members, probes) != members
    ensures i < |probes| && !probes[i].live
  {
    if probes[0].live {
      assert members == [members[0]] + members[1..];
      i := FirstDead(members[1..], probes[1..]);
      i := i + 1;
    } else {
      i := 0;
    }
  }

  lemma {:induction false} CapturedAfter(listings: seq<Event>, probes: seq<Event>, members: seq<Identity>, pid: Pid)
    requires |listings| == 2 && listings[1].Listed? && listings[1].pgid == pid && listings[1].pids == MemberPids(Group(pid, members))
    requires forall i, j :: 0 <= i < j < |members| ==> members[i].token != members[j].token
    requires forall i :: 0 <= i < |members| ==> members[i].pgid == pid
    ensures (forall i :: 0 <= i < |members| ==> SeenLive(probes, members[i].token)) ==> Captured(Group(pid, members), listings + probes)
  {
    SeenLaterToo(listings, probes);
    assert (listings + probes)[1] == listings[1];
  }

  lemma {:induction false} NotAllCaptured(log: seq<Event>, pids: set<Pid>, timeline: nat -> World, pid: Pid, asid: nat, uid: nat)
    requires |log| == 1 && log[0].Listed? && log[0].pgid == pid && log[0].pids == pids
    requires exists q :: q in pids && CannotCapture(timeline, q, asid, uid)
    ensures CaptureStopped(IdentityUnavailable, log, timeline, pid, asid, uid)
  {
    var q :| q in pids && CannotCapture(timeline, q, asid, uid);
    assert Mentions(log, pid, q);
  }

  lemma {:induction false} WhyChanged(log: seq<Event>, members: seq<Identity>, timeline: nat -> World, pid: Pid, asid: nat, uid: nat)
    requires |log| == 2 && log[0].Listed? && log[1].Listed? && log[0].pgid == pid == log[1].pgid
    requires log[0].pids == (set m | m in members :: m.pid)
    requires forall m :: m in members ==> m.uid == uid && m.asid == asid == m.token.asid && RanIn(timeline, m.pid, m.pgid)
    requires log[0].pids != log[1].pids || exists m :: m in members && (m.pgid != pid || m.uid != uid || m.asid != asid)
    ensures CaptureStopped(GroupChanged, log, timeline, pid, asid, uid)
  {
    if log[0].pids == log[1].pids {
      var m :| m in members && (m.pgid != pid || m.uid != uid || m.asid != asid);
      assert m.pid in log[0].pids;
      assert Mentions(log, pid, m.pid);
    } else {
      assert ListingsDiffer(log, pid);
    }
  }

  /** Two listings of the group that agree, with each member captured in between. */
  method CaptureListed(timeline: nat -> World, start: nat, pid: Pid, root: Identity, asid: nat, uid: nat)
    returns (r: Result<seq<Identity>>, now: nat, ext: seq<Event>)
    requires root.token.pid == root.pid && root.uid == uid && root.asid == asid == root.token.asid && RanIn(timeline, root.pid, root.pgid)
    ensures start <= now && Within(ext, start, now) && TrueTo(ext, timeline) && Quiet(ext)
    ensures r.Failure? ==> CaptureStopped(r.error, ext, timeline, pid, asid, uid)
    ensures r.Success? ==>
      && |ext| == 2 && ext[1].Listed? && ext[1].pgid == pid && ext[1].pids == MemberPids(Group(pid, r.value))
      && (forall i, j :: 0 <= i < j < |r.value| ==> r.value[i].token != r.value[j].token)
      && (forall i :: 0 <= i < |r.value| ==> r.value[i].pgid == pid)
      && OfSession(Group(pid, r.value), pid, asid, uid)
  {
    now, ext := start, [];
    var first := ListProcessGroup(timeline(now), pid);
    if first.Failure? {
      return Failure(GroupStateUnknown), now + 1, ext;
    }
    ext := [Listed(pid, first.value, now)];
    now := now + 1;
    if pid !in first.value {
      assert ext[0].Listed? && ext[0].pgid == pid && pid !in ext[0].pids;
      return Failure(GroupIncomplete), now, ext;
    }
    var members;
    members, now := CaptureMembers(timeline, now, first.value, root, asid, uid);
    if members.Failure? {
      NotAllCaptured(ext, first.value, timeline, pid, asid, uid);
      return Failure(members.error), now, ext;
    }
    var second := ListProcessGroup(timeline(now), pid);
    if second.Failure? {
      return Failure(GroupStateUnknown), now + 1, ext;
    }
    ext := ext + [Listed(pid, second.value, now)];
    now := now + 1;
    if first.value != second.value || exists m | m in members.value :: m.pgid != pid || m.uid != uid || m.asid != asid {
      WhyChanged(ext, members.value, timeline, pid, asid, uid);
      return Failure(GroupChanged), now, ext;
    }
    CapturedTogether(members.value, pid);
    r := members;
  }

  lemma {:induction false} CapturedTogether(members: seq<Identity>, pid: Pid)
    requires !exists m :: m in members && m.pgid != pid
    requires forall i :: 0 <= i < |members| ==> members[i].token.pid == members[i].pid
    requires forall i, j :: 0 <= i < j < |members| ==> members[i].pid != members[j].pid
    ensures forall i, j :: 0 <= i < j < |members| ==> members[i].token != members[j].token
    ensures forall i :: 0 <= i < |members| ==> members[i].pgid == pid
  {
    assert forall i :: 0 <= i < |members| ==> members[i] in members;
  }

  lemma {:induction false} SeenLaterToo(a: seq<Event>, b: seq<Event>)
    ensures forall t :: SeenLive(b, t) ==> SeenLive(a + b, t)
  {
    forall t | SeenLive(b, t) ensures SeenLive(a + b, t) {
      var i :| 0 <= i < |b| && b[i].Probed? && b[i].token == t && b[i].live;
      assert (a + b)[|a| + i] == b[i];
    }
  }

  // ---------------------------------------------------------------- the upgrade

  const BEFORE_FENCE := [BootoutEdge, BootoutControlPlane, CheckEdgeUnloaded, CheckControlPlaneUnloaded]
  const AFTER_FENCE :=
    [WaitForStopped, Backup, BootstrapControlPlane, WaitForControlPlane, BootstrapEdge, WaitForEdge, ReloadMcp]

  /** The lifecycle effects of a stretch, in order. */
  function Steps(log: seq<Event>): seq<UpgradeStep>
  {
    if log == [] then []
    else if log[0].Performed? then [log[0].step] + Steps(log[1..])
    else Steps(log[1..])
  }

  lemma {:induction false} StepsAppend(a: seq<Event>, b: seq<Event>)
    ensures Steps(a + b) == Steps(a) + Steps(b)
  {
    if a == [] {
      assert a + b == b;
    } else {
      StepsAppend(a[1..], b);
      assert (a + b)[1..] == a[1..] + b;
    }
  }

  lemma {:induction false} NoEffectNoSteps(log: seq<Event>)
    requires NoEffect(log)
    ensures Steps(log) == []
  {
    if log != [] {
      NoEffectNoSteps(log[1..]);
    }
  }

  /** A stretch of effects: the first ones of a list, in order, one an instant. */
  ghost predicate Ran(log: seq<Event>, steps: seq<UpgradeStep>, start: nat)
  {
    && |log| <= |steps| && Steps(log) == steps[..|log|]
    && forall i :: 0 <= i < |log| ==> log[i] == Performed(steps[i], start + i)
  }

  /** The last effect of the log is the one that failed. */
  ghost predicate StepStopped(error: Error, log: seq<Event>, succeeds: UpgradeStep -> bool)
  {
    && error.StepFailed? && !succeeds(error.step)
    && log != [] && log[|log| - 1].Performed? && log[|log| - 1].step == error.step
  }

  /** The fence gave up: a fault, or a group that outlived both signals. */
  ghost predicate FenceStopped(error: Error, log: seq<Event>, timeline: nat -> World, groups: seq<Group>)
  {
    || (exists since: nat, until: nat :: Fault(error, timeline, groups, log, since, until))
    || (error.StillAliveAfterEscalation? && exists since: nat :: Stubborn(log, groups, since))
  }

  lemma {:induction false} FenceStoppedLifts(error: Error, before: seq<Event>, log: seq<Event>, timeline: nat -> World, groups: seq<Group>)
    requires FenceStopped(error, log, timeline, groups)
    ensures FenceStopped(error, before + log, timeline, groups)
  {
    if since: nat, until: nat :| Fault(error, timeline, groups, log, since, until) {
      FaultLifts(error, timeline, groups, groups, before, log, since, since, until);
    } else {
      var since: nat :| Stubborn(log, groups, since);
      var g :| g in groups && Dealt(log, g, Term, since) && Dealt(log, g, Kill, since) && OutlivesSignals(log, g);
      DealtLifts(before, log, g, Term, since, since);
      DealtLifts(before, log, g, Kill, since, since);
      SightingsLift(before, log, g);
      assert Stubborn(before + log, groups, since);
    }
  }

  ghost predicate Halted(error: Error, log: seq<Event>, timeline: nat -> World, groups: seq<Group>, succeeds: UpgradeStep -> bool)
  {
    StepStopped(error, log, succeeds) || FenceStopped(error, log, timeline, groups)
  }

  lemma {:induction false} HaltedLifts(error: Error, before: seq<Event>, log: seq<Event>, timeline: nat -> World, groups: seq<Group>,
                                       succeeds: UpgradeStep -> bool)
    requires Halted(error, log, timeline, groups, succeeds)
    ensures Halted(error, before + log, timeline, groups, succeeds)
  {
    if StepStopped(error, log, succeeds) {
      StepStoppedLifts(error, before, log, succeeds);
    } else {
      FenceStoppedLifts(error, before, log, timeline, groups);
    }
  }

  lemma {:induction false} StepStoppedLifts(error: Error, before: seq<Event>, log: seq<Event>, succeeds: UpgradeStep -> bool)
    requires StepStopped(error, log, succeeds)
    ensures StepStopped(error, before + log, succeeds)
  {
    assert (before + log)[|before + log| - 1] == log[|log| - 1];
  }

  lemma {:induction false} WarningsStay(first: seq<Event>, fence: seq<Event>, second: seq<Event>, pause: nat)
    requires NoSignal(first, Kill) && NoSignal(second, Kill) && KillsAreWarned(fence, pause)
    ensures KillsAreWarned(first + fence + second, pause)
  {
    var log := first + fence + second;
    assert forall i :: 0 <= i < |first| ==> log[i] == first[i];
    assert forall i :: 0 <= i < |fence| ==> log[|first| + i] == fence[i];
    assert forall i :: 0 <= i < |second| ==> log[|first| + |fence| + i] == second[i];
    forall j: nat | j < |log| && log[j].Signalled? && log[j].value == Kill ensures TermedBefore(log, j, pause) {
      assert |first| <= j < |first| + |fence| && log[j] == fence[j - |first|];
      assert TermedBefore(fence, j - |first|, pause);
      var i :| 0 <= i < j - |first| && fence[i].Signalled? && fence[i].token == log[j].token && fence[i].value == Term
        && fence[i].at + pause <= log[j].at;
      assert log[|first| + i] == fence[i];
    }
  }

  /** Effects in a fixed order, stopping at the first that fails. */
  method PerformAll(start: nat, steps: seq<UpgradeStep>, succeeds: UpgradeStep -> bool)
    returns (r: Result<()>, now: nat, ext: seq<Event>)
    ensures Ran(ext, steps, start) && now == start + |ext| && (r.Success? ==> |ext| == |steps|)
    ensures r.Failure? ==> StepStopped(r.error, ext, succeeds)
    ensures forall i :: 0 <= i < |ext| && (i < |ext| - 1 || r.Success?) ==> succeeds(steps[i])
  {
    now, ext := start, [];
    for i := 0 to |steps|
      invariant now == start + i && |ext| == i
      invariant forall k :: 0 <= k < i ==> ext[k] == Performed(steps[k], start + k)
      invariant Steps(ext) == steps[..i]
      invariant forall k :: 0 <= k < i ==> succeeds(steps[k])
    {
      var event := Performed(steps[i], now);
      StepsAppend(ext, [event]);
      assert Steps([event]) == [steps[i]] + Steps([event][1..]) == [steps[i]];
      ext, now := ext + [event], now + 1;
      if !succeeds(steps[i]) {
        return Failure(StepFailed(steps[i])), now, ext;
      }
    }
    r := Success(());
  }

  /** Every execution captured in a group is gone from an instant on. */
  ghost predicate GoneFrom(timeline: nat -> World, g: Group, instant: nat)
  {
    forall m, t: nat :: m in g.members && t >= instant ==> !Alive(timeline(t), m.token)
  }

  /** What happens while the old services are being stopped. Everything else has to wait for the fence. */
  predicate Stopping(step: UpgradeStep)
  {
    step in {BootoutEdge, BootoutControlPlane, CheckEdgeUnloaded, CheckControlPlaneUnloaded}
  }

  /**
   * Wherever an effect other than the stopping is in the log, the backup among them, nothing captured
   * is alive from that instant on and both groups have been seen empty earlier in the log.
   */
  ghost predicate BackupSafe(log: seq<Event>, timeline: nat -> World, groups: seq<Group>)
  {
    forall i :: 0 <= i < |log| && log[i].Performed? && !Stopping(log[i].step) ==>
      forall g :: g in groups ==> GoneFrom(timeline, g, log[i].at) && SeenEmpty(log[..i], g.pgid, 0)
  }

  ghost predicate LiveAtCapture(groups: seq<Group>, timeline: nat -> World, instant: nat)
  {
    forall g, m :: g in groups && m in g.members ==> LiveBefore(timeline, m.token, instant)
  }

  lemma {:induction false} CapturedWasLive(g: Group, log: seq<Event>, timeline: nat -> World, since: nat, until: nat)
    requires Captured(g, log) && TrueTo(log, timeline) && Within(log, since, until)
    ensures LiveAtCapture([g], timeline, until)
  {
    forall m | m in g.members ensures LiveBefore(timeline, m.token, until) {
      var k :| 0 <= k < |g.members| && g.members[k] == m;
      assert SeenLive(log, g.members[k].token);
      var i :| 0 <= i < |log| && log[i].Probed? && log[i].token == m.token && log[i].live;
      assert TrueEvent(log[i], timeline);
    }
  }

  method CaptureBoth(timeline: nat -> World, edgePid: Pid, edgeAsid: nat, planePid: Pid, planeAsid: nat, uid: nat)
    returns (r: Result<seq<Group>>, now: nat, ext: seq<Event>)
    ensures Quiet(ext)
    ensures r.Success? ==> |r.value| == 2 && CapturedAs(r.value[0], edgePid, ext) && CapturedAs(r.value[1], planePid, ext)
    ensures r.Success? ==> OfSession(r.value[0], edgePid, edgeAsid, uid) && OfSession(r.value[1], planePid, planeAsid, uid)
    ensures r.Success? ==> DistinctGroups(r.value) && LiveAtCapture(r.value, timeline, now)
    ensures r.Failure? ==>
      || CaptureStopped(r.error, ext, timeline, edgePid, edgeAsid, uid) || CaptureStopped(r.error, ext, timeline, planePid, planeAsid, uid)
      || (edgePid == planePid && r.error == SharedProcessGroup)
  {
    var edge;
    edge, now, ext := Capture(timeline, 0, edgePid, edgeAsid, uid);
    if edge.Failure? {
      return Failure(edge.error), now, ext;
    }
    CapturedWasLive(edge.value, ext, timeline, 0, now);
    var plane, later, more := Capture(timeline, now, planePid, planeAsid, uid);
    ghost var before := ext;
    ext := ext + more;
    if plane.Failure? {
      CaptureStoppedLifts(plane.error, before, more, [], timeline, planePid, planeAsid, uid);
      assert before + more + [] == ext;
      return Failure(plane.error), later, ext;
    }
    CapturedWasLive(plane.value, more, timeline, now, later);
    if edge.value.pgid == plane.value.pgid {
      return Failure(SharedProcessGroup), later, ext;
    }
    CapturedStays(edge.value, edgePid, before, more);
    CapturedLifts(plane.value, before, more, []);
    assert before + more + [] == ext;
    var groups := [edge.value, plane.value];
    forall g, m | g in groups && m in g.members ensures LiveBefore(timeline, m.token, later) {
      assert g in [edge.value] || g in [plane.value];
    }
    return Success(groups), later, ext;
  }

  lemma {:induction false} QuietThenSafe(a: seq<Event>, b: seq<Event>, timeline: nat -> World, groups: seq<Group>)
    requires Quiet(a) && BackupSafe(b, timeline, groups)
    ensures BackupSafe(a + b, timeline, groups)
    ensures Steps(a + b) == Steps(b)
    ensures forall v :: Sent(a + b, v) == Sent(b, v)
  {
    QuietIsHarmless(a);
    NoEffectNoSteps(a);
    StepsAppend(a, b);
    forall v ensures Sent(a + b, v) == Sent(b, v) {
      QuietSendsNothing(a, v);
      SentAppends(a, b, v);
    }
    var log := a + b;
    forall i, g | 0 <= i < |log| && log[i].Performed? && !Stopping(log[i].step) && g in groups
      ensures GoneFrom(timeline, g, log[i].at) && SeenEmpty(log[..i], g.pgid, 0)
    {
      var k := i - |a|;
      assert log[i] == b[k];
      assert SeenEmpty(b[..k], g.pgid, 0);
      var e :| 0 <= e < k && b[..k][e].Listed? && b[..k][e].pgid == g.pgid && b[..k][e].pids == {};
      assert log[..i][|a| + e] == b[..k][e];
    }
  }

  // The shape of a restart: effects of the first half, the fence, effects of the second half.
  lemma {:induction false} FenceThenSafe(first: seq<Event>, fence: seq<Event>, second: seq<Event>, timeline: nat -> World,
                                         groups: seq<Group>, since: nat, until: nat)
    requires Lawful(timeline) && LiveAtCapture(groups, timeline, since)
    requires forall i :: 0 <= i < |first| ==> first[i].Performed? && Stopping(first[i].step)
    requires NoEffect(fence) && Within(fence, since, until) && TrueTo(fence, timeline)
    requires second != [] ==> forall g :: g in groups ==> Retired(fence, g, since)
    requires forall i :: 0 <= i < |second| ==> second[i].Performed? && second[i].at >= until
    ensures BackupSafe(first + fence + second, timeline, groups)
  {
    var log := first + fence + second;
    assert forall i :: 0 <= i < |first| ==> log[i] == first[i];
    assert forall i :: 0 <= i < |fence| ==> log[|first| + i] == fence[i];
    assert forall i :: 0 <= i < |second| ==> log[|first| + |fence| + i] == second[i];
    forall i, g | 0 <= i < |log| && log[i].Performed? && !Stopping(log[i].step) && g in groups
      ensures GoneFrom(timeline, g, log[i].at) && SeenEmpty(log[..i], g.pgid, 0)
    {
      assert i >= |first| + |fence|;
      RetiredIsDead(fence, timeline, g, since, until);
      EmptyWasSeen(first, fence, second, g.pgid, since, i);
    }
  }

  lemma {:induction false} EmptyWasSeen(first: seq<Event>, fence: seq<Event>, second: seq<Event>, pgid: Pid, since: nat, i: nat)
    requires SeenEmpty(fence, pgid, since) && |first| + |fence| <= i <= |first + fence + second|
    ensures SeenEmpty((first + fence + second)[..i], pgid, 0)
  {
    var e :| 0 <= e < |fence| && fence[e].Listed? && fence[e].pgid == pgid && fence[e].pids == {};
    assert (first + fence + second)[..i][|first| + e] == fence[e];
  }

  lemma {:induction false} RestartCounts(first: seq<Event>, fence: seq<Event>, second: seq<Event>,
                                         x: seq<UpgradeStep>, y: seq<UpgradeStep>)
    requires NoEffect(fence)
    requires forall i :: 0 <= i < |first| ==> first[i].Performed?
    requires forall i :: 0 <= i < |second| ==> second[i].Performed?
    requires |first| <= |x| && |second| <= |y| && (second == [] || |first| == |x|)
    requires Steps(first) == x[..|first|] && Steps(second) == y[..|second|]
    ensures Steps(first + fence + second) <= x + y
    ensures |first| == |x| && |second| == |y| ==> Steps(first + fence + second) == x + y
    ensures forall v :: Sent(first + fence + second, v) == Sent(fence, v)
  {
    StepsAppend(first, fence);
    StepsAppend(first + fence, second);
    NoEffectNoSteps(fence);
    assert Steps(first + fence + second) == x[..|first|] + y[..|second|];
    assert |first| == |x| ==> x[..|first|] == x;
    assert |second| == |y| ==> y[..|second|] == y;
    forall v ensures Sent(first + fence + second, v) == Sent(fence, v) {
      SentAppends(first, fence, v);
      SentAppends(first + fence, second, v);
      NoSignalSendsNothing(first, v);
      NoSignalSendsNothing(second, v);
    }
  }

  lemma {:induction false} StepsOfPart(log: seq<Event>, steps: seq<UpgradeStep>)
    requires |log| <= |steps| && forall i :: 0 <= i < |log| ==> log[i].Performed? && log[i].step == steps[i]
    ensures forall i :: 0 <= i < |log| ==> log[i].Performed? && log[i].step in steps
  {
  }

  // ---------------------------------------------------------------- the order of the upgrade

  ghost predicate Did(log: seq<Event>, step: UpgradeStep)
  {
    exists i :: 0 <= i < |log| && log[i].Performed? && log[i].step == step
  }

  /** Wherever `later` is in the log, `first` is somewhere before it. */
  ghost predicate OnlyAfter(log: seq<Event>, later: UpgradeStep, first: UpgradeStep)
  {
    forall j :: 0 <= j < |log| && log[j].Performed? && log[j].step == later ==> Did(log[..j], first)
  }

  ghost predicate NothingTwice(log: seq<Event>)
  {
    forall i, j :: 0 <= i < j < |log| && log[i].Performed? && log[j].Performed? ==> log[i].step != log[j].step
  }

  ghost predicate NothingAfter(log: seq<Event>, last: UpgradeStep)
  {
    forall i, j :: 0 <= i < j < |log| && log[i].Performed? && log[i].step == last ==> !log[j].Performed?
  }

  /** Both services are out and seen unloaded before the stop is awaited, and the backup comes after that. */
  ghost predicate StopsBeforeBackup(log: seq<Event>)
  {
    && OnlyAfter(log, BootoutControlPlane, BootoutEdge)
    && OnlyAfter(log, CheckEdgeUnloaded, BootoutEdge) && OnlyAfter(log, CheckEdgeUnloaded, BootoutControlPlane)
    && OnlyAfter(log, CheckControlPlaneUnloaded, BootoutControlPlane)
    && OnlyAfter(log, WaitForStopped, BootoutEdge) && OnlyAfter(log, WaitForStopped, BootoutControlPlane)
    && OnlyAfter(log, WaitForStopped, CheckEdgeUnloaded) && OnlyAfter(log, WaitForStopped, CheckControlPlaneUnloaded)
    && OnlyAfter(log, Backup, WaitForStopped)
  }

  /** Nothing is started again before the backup, each start is awaited before the next, and the client is told last. */
  ghost predicate RestartsAfterBackup(log: seq<Event>)
  {
    && OnlyAfter(log, BootstrapControlPlane, Backup) && OnlyAfter(log, BootstrapEdge, Backup)
    && OnlyAfter(log, WaitForControlPlane, BootstrapControlPlane)
    && OnlyAfter(log, BootstrapEdge, WaitForControlPlane)
    && OnlyAfter(log, WaitForEdge, BootstrapEdge)
    && OnlyAfter(log, ReloadMcp, WaitForEdge) && NothingAfter(log, ReloadMcp)
  }

  /** What an upgrade promises about its order wherever it stops. */
  ghost predicate InUpgradeOrder(log: seq<Event>)
  {
    NothingTwice(log) && StopsBeforeBackup(log) && RestartsAfterBackup(log)
  }

  const ORDER := BEFORE_FENCE + AFTER_FENCE

  lemma {:induction false} DidIsInSteps(log: seq<Event>, step: UpgradeStep)
    ensures Did(log, step) <==> step in Steps(log)
  {
    if log != [] {
      DidIsInSteps(log[1..], step);
      assert forall i :: 0 <= i < |log| - 1 ==> log[1..][i] == log[i + 1];
      if i :| 0 <= i < |log[1..]| && log[1..][i].Performed? && log[1..][i].step == step {
        assert log[i + 1].Performed?;
      }
      if i :| 0 < i < |log| && log[i].Performed? && log[i].step == step {
        assert log[1..][i - 1].Performed?;
      }
    }
  }

  /** An effect stands in the order where as many effects stand before it in the log. */
  lemma {:induction false} StepStandsAt(log: seq<Event>, j: nat)
    requires j < |log| && log[j].Performed?
    ensures var n := |Steps(log[..j])|; n < |Steps(log)| && Steps(log)[n] == log[j].step && Steps(log)[..n] == Steps(log[..j])
    ensures |Steps(log[..j + 1])| == |Steps(log[..j])| + 1
  {
    var rest := log[j + 1..];
    assert log == log[..j] + ([log[j]] + rest) && log[..j + 1] == log[..j] + [log[j]];
    StepsAppend(log[..j], [log[j]] + rest);
    StepsAppend([log[j]], rest);
    StepsAppend(log[..j], [log[j]]);
    assert [log[j]][1..] == [] && Steps([log[j]]) == [log[j].step];
  }

  lemma {:induction false} OnlyAfterInOrder(log: seq<Event>, order: seq<UpgradeStep>, later: UpgradeStep, first: UpgradeStep, a: nat, b: nat)
    requires Steps(log) <= order && a < b < |order| && order[a] == first && order[b] == later
    requires forall i, j :: 0 <= i < j < |order| ==> order[i] != order[j]
    ensures OnlyAfter(log, later, first)
  {
    forall j | 0 <= j < |log| && log[j].Performed? && log[j].step == later ensures Did(log[..j], first) {
      StepStandsAt(log, j);
      var n := |Steps(log[..j])|;
      assert order[n] == later && n == b;
      assert Steps(log[..j])[a] == first;
      DidIsInSteps(log[..j], first);
    }
  }

  lemma {:induction false} StepsGrow(log: seq<Event>, i: nat, j: nat)
    requires i < j <= |log| && log[i].Performed?
    ensures |Steps(log[..i])| < |Steps(log[..j])|
  {
    StepStandsAt(log, i);
    assert log[..j] == log[..i + 1] + log[i + 1..j];
    StepsAppend(log[..i + 1], log[i + 1..j]);
  }

  lemma {:induction false} OnceInOrder(log: seq<Event>, order: seq<UpgradeStep>)
    requires order != [] && Steps(log) <= order && forall i, j :: 0 <= i < j < |order| ==> order[i] != order[j]
    ensures NothingTwice(log) && NothingAfter(log, order[|order| - 1])
  {
    forall i, j | 0 <= i < j < |log| && log[i].Performed? && log[j].Performed?
      ensures log[i].step != log[j].step && log[i].step != order[|order| - 1]
    {
      StepStandsAt(log, i);
      StepStandsAt(log, j);
      StepsGrow(log, i, j);
    }
  }

  lemma {:induction false} OrderNamesEachOnce()
    ensures |ORDER| == 11 && ORDER[0] == BootoutEdge && ORDER[1] == BootoutControlPlane && ORDER[2] == CheckEdgeUnloaded
    ensures ORDER[3] == CheckControlPlaneUnloaded && ORDER[4] == WaitForStopped && ORDER[5] == Backup
    ensures ORDER[6] == BootstrapControlPlane && ORDER[7] == WaitForControlPlane && ORDER[8] == BootstrapEdge
    ensures ORDER[9] == WaitForEdge && ORDER[10] == ReloadMcp
    ensures forall i, j :: 0 <= i < j < |ORDER| ==> ORDER[i] != ORDER[j]
  {
  }

  /** A log whose effects are the first ones of the list, in order, keeps the promise. */
  lemma {:induction false} StepsInUpgradeOrder(log: seq<Event>)
    requires Steps(log) <= ORDER
    ensures InUpgradeOrder(log)
    ensures Steps(log) == ORDER ==> forall step :: Did(log, step)
  {
    StepsStopFirst(log);
    StepsRestartInTurn(log);
    if Steps(log) == ORDER {
      forall step ensures Did(log, step) {
        EveryStepIsListed(step);
        DidIsInSteps(log, step);
      }
    }
  }

  lemma {:induction false} StepsStopFirst(log: seq<Event>)
    requires Steps(log) <= ORDER
    ensures NothingTwice(log) && StopsBeforeBackup(log)
  {
    OrderNamesEachOnce();
    OnceInOrder(log, ORDER);
    OnlyAfterInOrder(log, ORDER, BootoutControlPlane, BootoutEdge, 0, 1);
    OnlyAfterInOrder(log, ORDER, CheckEdgeUnloaded, BootoutEdge, 0, 2);
    OnlyAfterInOrder(log, ORDER, CheckEdgeUnloaded, BootoutControlPlane, 1, 2);
    OnlyAfterInOrder(log, ORDER, CheckControlPlaneUnloaded, BootoutControlPlane, 1, 3);
    OnlyAfterInOrder(log, ORDER, WaitForStopped, BootoutEdge, 0, 4);
    OnlyAfterInOrder(log, ORDER, WaitForStopped, BootoutControlPlane, 1, 4);
    OnlyAfterInOrder(log, ORDER, WaitForStopped, CheckEdgeUnloaded, 2, 4);
    OnlyAfterInOrder(log, ORDER, WaitForStopped, CheckControlPlaneUnloaded, 3, 4);
    OnlyAfterInOrder(log, ORDER, Backup, WaitForStopped, 4, 5);
  }

  lemma {:induction false} StepsRestartInTurn(log: seq<Event>)
    requires Steps(log) <= ORDER
    ensures RestartsAfterBackup(log)
  {
    OrderNamesEachOnce();
    OnceInOrder(log, ORDER);
    OnlyAfterInOrder(log, ORDER, BootstrapControlPlane, Backup, 5, 6);
    OnlyAfterInOrder(log, ORDER, BootstrapEdge, Backup, 5, 8);
    OnlyAfterInOrder(log, ORDER, WaitForControlPlane, BootstrapControlPlane, 6, 7);
    OnlyAfterInOrder(log, ORDER, BootstrapEdge, WaitForControlPlane, 7, 8);
    OnlyAfterInOrder(log, ORDER, WaitForEdge, BootstrapEdge, 8, 9);
    OnlyAfterInOrder(log, ORDER, ReloadMcp, WaitForEdge, 9, 10);
  }

  lemma {:induction false} EveryStepIsListed(step: UpgradeStep)
    ensures step in ORDER
  {
    OrderNamesEachOnce();
    match step
    case BootoutEdge => case BootoutControlPlane => case CheckEdgeUnloaded => case CheckControlPlaneUnloaded =>
    case WaitForStopped => case Backup => case BootstrapControlPlane => case WaitForControlPlane =>
    case BootstrapEdge => case WaitForEdge => case ReloadMcp =>
  }

  /**
   * What holds of the log wherever a restart stops: the effects so far are in order, signals stay
   * within what was captured, KILL follows TERM, and nothing captured lives on at the backup.
   */
  ghost predicate RestartKept(log: seq<Event>, timeline: nat -> World, groups: seq<Group>, pause: nat)
  {
    && Steps(log) <= ORDER && InUpgradeOrder(log)
    && multiset(Sent(log, Term)) <= multiset(AllTokens(groups)) && multiset(Sent(log, Kill)) <= multiset(AllTokens(groups))
    && BackupSafe(log, timeline, groups)
    && KillsAreWarned(log, pause)
  }

  // What a restart keeps, wherever it stops.
  lemma {:induction false} AllStopping()
    ensures forall i :: 0 <= i < |BEFORE_FENCE| ==> Stopping(BEFORE_FENCE[i])
  {
  }

  lemma {:induction false} RestartHolds(first: seq<Event>, fence: seq<Event>, second: seq<Event>, timeline: nat -> World,
                                        groups: seq<Group>, start: nat, since: nat, until: nat, pause: nat)
    requires Lawful(timeline) && LiveAtCapture(groups, timeline, since) && KillsFollow(fence, pause)
    requires NoEffect(fence) && Within(fence, since, until) && TrueTo(fence, timeline)
    requires second != [] ==> forall g :: g in groups ==> Retired(fence, g, since)
    requires Ran(first, BEFORE_FENCE, start) && Ran(second, AFTER_FENCE, until) && (second == [] || |first| == |BEFORE_FENCE|)
    requires multiset(Sent(fence, Term)) <= multiset(AllTokens(groups)) && multiset(Sent(fence, Kill)) <= multiset(AllTokens(groups))
    ensures RestartKept(first + fence + second, timeline, groups, pause)
    ensures |first| == |BEFORE_FENCE| && |second| == |AFTER_FENCE| ==> Steps(first + fence + second) == ORDER
  {
    StepsOfPart(first, BEFORE_FENCE);
    AllStopping();
    KillsAreAllWarned(fence, timeline, groups, since, until, pause);
    WarningsStay(first, fence, second, pause);
    RestartCounts(first, fence, second, BEFORE_FENCE, AFTER_FENCE);
    StepsInUpgradeOrder(first + fence + second);
    FenceThenSafe(first, fence, second, timeline, groups, since, until);
  }

  lemma {:induction false} RestartStopsEarly(first: seq<Event>, timeline: nat -> World, groups: seq<Group>, start: nat, since: nat, pause: nat)
    requires Lawful(timeline) && LiveAtCapture(groups, timeline, since) && Ran(first, BEFORE_FENCE, start)
    ensures RestartKept(first, timeline, groups, pause)
  {
    RestartHolds(first, [], [], timeline, groups, start, since, since, pause);
    assert first + [] + [] == first;
  }

  method Restart(timeline: nat -> World, start: nat, groups: seq<Group>, attempts: nat, interval: nat, succeeds: UpgradeStep -> bool)
    returns (r: Result<()>, ext: seq<Event>)
    requires attempts >= 1 && Lawful(timeline) && DistinctGroups(groups) && LiveAtCapture(groups, timeline, start)
    ensures RestartKept(ext, timeline, groups, Patience(attempts, interval))
    ensures r.Success? ==> Steps(ext) == ORDER
    ensures r.Failure? ==> Halted(r.error, ext, timeline, groups, succeeds)
  {
    var stopped, unloaded, first := PerformAll(start, BEFORE_FENCE, succeeds);
    LaterStillLive(groups, timeline, start, unloaded);
    if stopped.Failure? {
      RestartStopsEarly(first, timeline, groups, start, unloaded, Patience(attempts, interval));
      return Failure(stopped.error), first;
    }
    var fenced, cleared, fence := FenceAfterBootout(timeline, unloaded, groups, attempts, interval);
    if fenced.Failure? {
      RestartHolds(first, fence, [], timeline, groups, start, unloaded, cleared, Patience(attempts, interval));
      FenceFailed(fenced.error, first, fence, timeline, groups, unloaded, cleared);
      return Failure(fenced.error), first + fence + [];
    }
    var finished, _, second := PerformAll(cleared, AFTER_FENCE, succeeds);
    RestartHolds(first, fence, second, timeline, groups, start, unloaded, cleared, Patience(attempts, interval));
    if finished.Failure? {
      StepStoppedLifts(finished.error, first + fence, second, succeeds);
    }
    return finished, first + fence + second;
  }

  lemma {:induction false} FenceFailed(error: Error, first: seq<Event>, fence: seq<Event>, timeline: nat -> World, groups: seq<Group>,
                                       since: nat, until: nat)
    requires Fault(error, timeline, groups, fence, since, until) || (error.StillAliveAfterEscalation? && Stubborn(fence, groups, since))
    ensures FenceStopped(error, first + fence + [], timeline, groups)
  {
    FenceStoppedLifts(error, first, fence, timeline, groups);
    assert first + fence + [] == first + fence;
  }

  lemma {:induction false} LaterStillLive(groups: seq<Group>, timeline: nat -> World, start: nat, later: nat)
    requires LiveAtCapture(groups, timeline, start) && start <= later
    ensures LiveAtCapture(groups, timeline, later)
  {
    forall g, m | g in groups && m in g.members ensures LiveBefore(timeline, m.token, later) {
      assert LiveBefore(timeline, m.token, start);
    }
  }

  /**
   * `upgrade_dashboard_lifecycle`: the lifecycle effects happen in one fixed order, stopping at
   * the first failure, so neither service is started again before the backup; and when the
   * rollback backup is taken, no execution captured from either service is alive, then or later.
   */
  method Upgrade(timeline: nat -> World, edgePid: Pid, edgeAsid: nat, planePid: Pid, planeAsid: nat, uid: nat,
                 attempts: nat, interval: nat, succeeds: UpgradeStep -> bool)
    returns (r: Result<()>, log: seq<Event>, captured: seq<Group>)
    requires attempts >= 1 && Lawful(timeline)
    ensures RestartKept(log, timeline, captured, Patience(attempts, interval))
    ensures r.Success? ==> forall step :: Did(log, step)
    ensures captured == [] ==> r.Failure? && Quiet(log)
    ensures captured != [] ==> |captured| == 2 && CapturedAs(captured[0], edgePid, log) && CapturedAs(captured[1], planePid, log)
    ensures captured != [] ==> OfSession(captured[0], edgePid, edgeAsid, uid) && OfSession(captured[1], planePid, planeAsid, uid)
    ensures r.Failure? && captured != [] ==> Halted(r.error, log, timeline, captured, succeeds)
    ensures r.Failure? && captured == [] ==>
      || CaptureStopped(r.error, log, timeline, edgePid, edgeAsid, uid) || CaptureStopped(r.error, log, timeline, planePid, planeAsid, uid)
      || (edgePid == planePid && r.error == SharedProcessGroup)
  {
    var both, now, looking := CaptureBoth(timeline, edgePid, edgeAsid, planePid, planeAsid, uid);
    if both.Failure? {
      captured := [];
      NothingToKeep(looking, timeline, Patience(attempts, interval));
      return Failure(both.error), looking, captured;
    }
    captured := both.value;
    var ext;
    r, ext := Restart(timeline, now, captured, attempts, interval, succeeds);
    log := looking + ext;
    KeptAfterLooking(looking, ext, timeline, captured, Patience(attempts, interval));
    StepsInUpgradeOrder(log);
    CapturedStays(captured[0], edgePid, looking, ext);
    CapturedStays(captured[1], planePid, looking, ext);
    if r.Failure? {
      HaltedLifts(r.error, looking, ext, timeline, captured, succeeds);
    }
  }

  lemma {:induction false} CapturedStays(g: Group, pgid: Pid, log: seq<Event>, after: seq<Event>)
    requires CapturedAs(g, pgid, log)
    ensures CapturedAs(g, pgid, log + after)
  {
    CapturedLifts(g, [], log, after);
    assert [] + log + after == log + after;
  }

  ghost predicate CapturedAs(g: Group, pgid: Pid, log: seq<Event>)
  {
    g.pgid == pgid && Captured(g, log)
  }

  lemma {:induction false} NothingToKeep(looking: seq<Event>, timeline: nat -> World, pause: nat)
    requires Quiet(looking)
    ensures RestartKept(looking, timeline, [], pause)
  {
    QuietThenSafe(looking, [], timeline, []);
    assert looking + [] == looking;
    StepsInUpgradeOrder(looking);
  }

  lemma {:induction false} KeptAfterLooking(looking: seq<Event>, ext: seq<Event>, timeline: nat -> World, groups: seq<Group>, pause: nat)
    requires Quiet(looking) && RestartKept(ext, timeline, groups, pause)
    ensures RestartKept(looking + ext, timeline, groups, pause) && Steps(looking + ext) == Steps(ext)
  {
    QuietThenSafe(looking, ext, timeline, groups);
    WarningsStay(looking, ext, [], pause);
    StepsInUpgradeOrder(looking + ext);
    assert looking + ext + [] == looking + ext;
  }

  lemma {:induction false} CapturedLifts(g: Group, before: seq<Event>, log: seq<Event>, after: seq<Event>)
    requires Captured(g, log)
    ensures Captured(g, before + log + after)
  {
    SeenLaterToo(before, log);
    SightingsStay(before + log, after, 0);
    var i :| 0 <= i < |log| && log[i].Listed? && log[i].pgid == g.pgid && log[i].pids == MemberPids(g);
    assert (before + log + after)[|before| + i] == log[i];
  }

  // ---------------------------------------------------------------- executions captured twice

  ghost predicate Disjoint(a: Group, b: Group)
  {
    forall m, n :: m in a.members && n in b.members ==> m.token != n.token
  }

  ghost predicate AtMostOnce(log: seq<Event>, value: SignalValue)
  {
    forall t :: multiset(Sent(log, value))[t] <= 1
  }

  lemma {:induction false} TokensOfTwo(a: Group, b: Group)
    ensures AllTokens([a, b]) == Tokens(a.members) + Tokens(b.members)
  {
    assert [a, b][1..] == [b] && [b][1..] == [];
    assert AllTokens([b]) == Tokens(b.members) + [] == Tokens(b.members);
  }

  lemma {:induction false} CountsOfTwo(a: Group, b: Group, captures: seq<Event>, t: Token)
    requires Captured(a, captures) && Captured(b, captures)
    ensures multiset(AllTokens([a, b]))[t] ==
      (if exists m :: m in a.members && m.token == t then 1 else 0) + (if exists n :: n in b.members && n.token == t then 1 else 0)
  {
    TokensOfTwo(a, b);
    DistinctTokens(a.members, t);
    DistinctTokens(b.members, t);
  }

  /** When no execution was captured from both services, each signal reaches each one at most once. */
  lemma {:induction false} SignalledAtMostOnce(log: seq<Event>, value: SignalValue, a: Group, b: Group, t: Token)
    requires multiset(Sent(log, value)) <= multiset(AllTokens([a, b]))
    requires Captured(a, log) && Captured(b, log) && Disjoint(a, b)
    ensures multiset(Sent(log, value))[t] <= 1
  {
    CountsOfTwo(a, b, log, t);
  }

  /** A pass that signals everything captured reaches each execution once exactly when the captures are disjoint. */
  lemma {:induction false} OnceExactlyWhenDisjoint(log: seq<Event>, value: SignalValue, a: Group, b: Group, captures: seq<Event>)
    requires Captured(a, captures) && Captured(b, captures)
    requires Sent(log, value) == AllTokens([a, b])
    ensures AtMostOnce(log, value) <==> Disjoint(a, b)
  {
    if Disjoint(a, b) {
      forall t ensures multiset(Sent(log, value))[t] <= 1 {
        CountsOfTwo(a, b, captures, t);
      }
    } else {
      var m, n :| m in a.members && n in b.members && m.token == n.token;
      CountsOfTwo(a, b, captures, m.token);
      assert multiset(Sent(log, value))[m.token] == 2;
    }
  }

  const EDGE_ROOT := Token(10, 1, 1)
  const PLANE_ROOT := Token(20, 1, 1)
  const MOVER := Token(30, 1, 1)

  /** The two services' roots, and a process that stands in one of their groups. */
  function Standing(pgid: Pid): World
  {
    World({Process(10, 10, 5, EDGE_ROOT), Process(20, 20, 5, PLANE_ROOT), Process(30, pgid, 5, MOVER)}, {}, {}, {})
  }

  /** It changes from the first group to the second right after the first capture. */
  function Moving(t: nat): World
  {
    if t < 6 then Standing(10) else Standing(20)
  }

  const EDGE := Group(10, [Identity(10, 10, 5, 1, EDGE_ROOT), Identity(30, 10, 5, 1, MOVER)])
  const PLANE := Group(20, [Identity(20, 20, 5, 1, PLANE_ROOT), Identity(30, 20, 5, 1, MOVER)])

  /** What the two captures see: each group listed twice, with its members, and each member alive. */
  const EDGE_CAPTURE := [Listed(10, {10, 30}, 1), Listed(10, {10, 30}, 3), Probed(EDGE_ROOT, true, 4), Probed(MOVER, true, 5)]
  const PLANE_CAPTURE := [Listed(20, {20, 30}, 7), Listed(20, {20, 30}, 9), Probed(PLANE_ROOT, true, 10), Probed(MOVER, true, 11)]

  lemma {:induction false} StandingWorld(pgid: Pid)
    ensures Alive(Standing(pgid), EDGE_ROOT) && Alive(Standing(pgid), PLANE_ROOT) && Alive(Standing(pgid), MOVER)
    ensures forall t :: Alive(Standing(pgid), t) ==> t in {EDGE_ROOT, PLANE_ROOT, MOVER}
    ensures GroupPids(Standing(pgid), 10) == if pgid == 10 then {10, 30} else {10}
    ensures GroupPids(Standing(pgid), 20) == if pgid == 20 then {20, 30} else {20}
  {
    var w := Standing(pgid);
    assert Process(10, 10, 5, EDGE_ROOT) in w.processes && Process(20, 20, 5, PLANE_ROOT) in w.processes
      && Process(30, pgid, 5, MOVER) in w.processes;
  }

  lemma {:induction false} CapturedHere(g: Group, log: seq<Event>, first: Identity, second: Identity)
    requires g.members == [first, second] && first.token != second.token && first.pgid == second.pgid == g.pgid
    requires |log| == 4 && log[0].Listed? && log[0].pgid == g.pgid && log[0].pids == {first.pid, second.pid}
    requires log[2] == Probed(first.token, true, log[2].at) && log[3] == Probed(second.token, true, log[3].at)
    ensures Captured(g, log)
  {
    assert MemberPids(g) == {first.pid, second.pid};
  }

  lemma {:induction false} MovingIsLawful()
    ensures Lawful(Moving)
  {
    forall t, a: nat, b: nat ensures Alive(Moving(a), t) ==> Alive(Moving(b), t) {
      AlwaysAlive(a);
      AlwaysAlive(b);
    }
  }

  lemma {:induction false} AlwaysAlive(at: nat)
    ensures forall t :: Alive(Moving(at), t) <==> t in {EDGE_ROOT, PLANE_ROOT, MOVER}
  {
    StandingWorld(10);
    StandingWorld(20);
  }

  lemma {:induction false} CapturesAreTrue()
    ensures TrueTo(EDGE_CAPTURE, Moving) && Within(EDGE_CAPTURE, 0, 6)
    ensures TrueTo(PLANE_CAPTURE, Moving) && Within(PLANE_CAPTURE, 6, 12)
  {
    StandingWorld(10);
    StandingWorld(20);
    forall i | 0 <= i < 4 ensures TrueEvent(EDGE_CAPTURE[i], Moving) && TrueEvent(PLANE_CAPTURE[i], Moving) {
      assert i == 0 || i == 1 || i == 2 || i == 3;
    }
  }

  /** The double capture: on a lawful system both captures succeed, and one execution is in both groups. */
  lemma {:induction false} MoverIsCapturedTwice()
    ensures Lawful(Moving) && !Disjoint(EDGE, PLANE)
    ensures TrueTo(EDGE_CAPTURE, Moving) && Within(EDGE_CAPTURE, 0, 6) && Captured(EDGE, EDGE_CAPTURE)
    ensures TrueTo(PLANE_CAPTURE, Moving) && Within(PLANE_CAPTURE, 6, 12) && Captured(PLANE, PLANE_CAPTURE)
  {
    MovingIsLawful();
    CapturesAreTrue();
    CapturedHere(EDGE, EDGE_CAPTURE, EDGE.members[0], EDGE.members[1]);
    CapturedHere(PLANE, PLANE_CAPTURE, PLANE.members[0], PLANE.members[1]);
    var m, n := EDGE.members[1], PLANE.members[1];
    assert m in EDGE.members && n in PLANE.members && m.token == n.token;
  }

  /** A kernel that answers everything and shows nothing foreign gives no fault. */
  ghost predicate Calm(timeline: nat -> World, groups: seq<Group>, since: nat)
  {
    forall t: nat :: t >= since ==>
      && timeline(t).unreadable == {} && timeline(t).unlistable == {} && timeline(t).unsignalable == {}
      && forall i :: 0 <= i < |groups| ==> GroupPids(timeline(t), groups[i].pgid) <= MemberPids(groups[i])
  }

  lemma {:induction false} CalmHasNoFault(error: Error, timeline: nat -> World, groups: seq<Group>, log: seq<Event>, since: nat, until: nat)
    requires Calm(timeline, groups, since) && DistinctGroups(groups) && TrueTo(log, timeline) && Within(log, since, until)
    ensures !Fault(error, timeline, groups, log, since, until)
  {
    if error.GroupGainedUnknownMember? && log != [] {
      var e := log[|log| - 1];
      assert TrueEvent(e, timeline);
      forall g | g in groups && e.Listed? && g.pgid == e.pgid ensures e.pids <= MemberPids(g) {
        var i :| 0 <= i < |groups| && groups[i] == g;
      }
    }
  }

  lemma {:induction false} MoverIsCalm()
    ensures Calm(Moving, [EDGE, PLANE], 12) && DistinctGroups([EDGE, PLANE])
  {
    StandingWorld(20);
    assert EDGE.members[0] in EDGE.members && PLANE.members[0] in PLANE.members && PLANE.members[1] in PLANE.members;
  }

  lemma {:induction false} MoverIsSteady(until: nat)
    ensures Steady(Moving, [EDGE, PLANE], 12, until)
  {
    StandingWorld(20);
    forall t: nat, i, k | 12 <= t < until && 0 <= i < |[EDGE, PLANE]| && 0 <= k < |[EDGE, PLANE][i].members|
      ensures Alive(Moving(t), [EDGE, PLANE][i].members[k].token)
    {
      assert [EDGE, PLANE][i].members[k].token in {EDGE_ROOT, PLANE_ROOT, MOVER};
    }
  }

  /** The execution captured twice is sent the signal twice in one pass. */
  method MoverIsSignalledTwice(value: SignalValue) returns (r: Result<()>, now: nat, ext: seq<Event>)
    ensures r.Success? && multiset(Sent(ext, value))[MOVER] == 2
  {
    MoverIsCalm();
    r, now, ext := SignalExact(Moving, 12, [EDGE, PLANE], value, [EDGE, PLANE]);
    forall error | Fault(error, Moving, [EDGE, PLANE], ext, 12, now) ensures false {
      CalmHasNoFault(error, Moving, [EDGE, PLANE], ext, 12, now);
    }
    MoverIsSteady(now);
    BothCount();
  }

  lemma {:induction false} BothCount()
    ensures multiset(AllTokens([EDGE, PLANE]))[MOVER] == 2
  {
    TokensOfTwo(EDGE, PLANE);
    DistinctTokens(EDGE.members, MOVER);
    DistinctTokens(PLANE.members, MOVER);
    assert EDGE.members[1] in EDGE.members && PLANE.members[1] in PLANE.members;
  }

  lemma {:induction false} DistinctTokens(members: seq<Identity>, t: Token)
    requires forall i, j :: 0 <= i < j < |members| ==> members[i].token != members[j].token
    ensures multiset(Tokens(members))[t] == if exists m :: m in members && m.token == t then 1 else 0
  {
    if members != [] {
      DistinctTokens(members[1..], t);
      TokensCons(members[0], members[1..]);
      assert members == [members[0]] + members[1..];
      assert members[0] in members;
    }
  }
}
