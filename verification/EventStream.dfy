// dashboard.py: following history pages, and the live stream that replays and then waits for commits.
module EventStream {
  import opened EventReplay
  import opened Wrappers

  const PAGE_LIMIT := 100

  // ---------------------------------------------------------------- a growing, front-pruned log

  /** Every event ever appended, and how many of the oldest were pruned. */
  datatype Store = Store(generation: nat, history: seq<Event>, pruned: nat)

  ghost predicate ValidStore(store: Store)
  {
    Ordered(store.history) && store.pruned <= |store.history|
  }

  function Seen(store: Store): Snapshot
    requires store.pruned <= |store.history|
  {
    Snapshot(store.generation, store.history[store.pruned..])
  }

  /** The last sequence number that was pruned. */
  function Boundary(store: Store): nat
    requires store.pruned <= |store.history|
  {
    Last(store.history[..store.pruned])
  }

  /** Where replay really starts: a cursor at zero starts at the oldest retained event. */
  function Start(store: Store, from: nat): nat
    requires store.pruned <= |store.history|
  {
    if from == 0 then Boundary(store) else from
  }

  lemma {:induction false} AppendKeepsVisible(history: seq<Event>, more: seq<Event>, after: nat, upTo: nat)
    requires Ordered(history + more)
    requires upTo <= after || upTo <= Last(history)
    ensures Visible(history + more, after, upTo) == Visible(history, after, upTo)
  {
    VisibleConcat(history, more, after, upTo);
    forall i | 0 <= i < |more| ensures more[i].sequence <= after || more[i].sequence > upTo {
      assert (history + more)[|history| + i] == more[i];
      if history != [] {
        assert (history + more)[|history| - 1] == history[|history| - 1];
      }
    }
    VisibleNone(more, after, upTo);
  }

  /** A page of the pruned log shows exactly what the whole log would show after the start. */
  lemma {:induction false} PageOfWholeLog(store: Store, after: Option<Cursor>, limit: int)
    requires ValidStore(store) && ReadHistory(Seen(store), after, limit).Page?
    ensures var page, from := ReadHistory(Seen(store), after, limit), Requested(Seen(store), after).sequence;
      && page.items == Visible(store.history, Start(store, from), page.nextCursor.sequence)
      && from <= page.nextCursor.sequence <= Last(store.history)
      && (page.nextCursor.sequence > 0 ==> Start(store, from) <= page.nextCursor.sequence)
      && (!page.hasMore ==> Last(store.history) <= page.nextCursor.sequence || Last(store.history) == Start(store, from))
  {
    var db := Seen(store);
    var page, from := ReadHistory(db, after, limit), Requested(db, after).sequence;
    PageIsExact(db, after, limit);
    WholeLogVisible(store, from, page.nextCursor.sequence);
  }

  /** Inside the window, the retained events show what the whole log shows from the start. */
  lemma {:induction false} WholeLogVisible(store: Store, from: nat, next: nat)
    requires ValidStore(store) && !OutOfWindow(Seen(store), from)
    ensures Visible(store.history[store.pruned..], from, next) == Visible(store.history, Start(store, from), next)
    ensures from == 0 && next <= Start(store, from) ==> Visible(store.history, Start(store, from), next) == []
    ensures Last(Seen(store).events) > 0 ==>
      Start(store, 0) < Last(Seen(store).events) && Last(Seen(store).events) == Last(store.history)
    ensures Last(Seen(store).events) == 0 ==> Last(store.history) == Start(store, 0)
  {
    var start := Start(store, from);
    var front, back := store.history[..store.pruned], store.history[store.pruned..];
    assert store.history == front + back;
    PrunedLieBelow(store, from);
    VisibleConcat(front, back, start, next);
    VisibleNone(front, start, next);
    if from == 0 {
      SameLowerBound(back, 0, start, next);
      if next <= start {
        VisibleNone(back, start, next);
      }
    }
  }

  /** A cursor inside the window lies at or above everything that was pruned. */
  lemma {:induction false} PrunedLieBelow(store: Store, from: nat)
    requires ValidStore(store) && !OutOfWindow(Seen(store), from)
    ensures forall i :: 0 <= i < store.pruned ==> store.history[..store.pruned][i].sequence <= Start(store, from)
    ensures from == 0 ==> forall i :: 0 <= i < |store.history[store.pruned..]| ==> store.history[store.pruned..][i].sequence > Start(store, from)
  {
  }

  lemma {:induction false} SameLowerBound(events: seq<Event>, low: nat, high: nat, upTo: nat)
    requires low <= high && forall i :: 0 <= i < |events| ==> events[i].sequence > high
    ensures Visible(events, low, upTo) == Visible(events, high, upTo)
  {
    if events != [] {
      SameLowerBound(events[1..], low, high, upTo);
    }
  }

  // ---------------------------------------------------------------- following pages

  ghost predicate Evolves(a: Store, b: Store)
  {
    ValidStore(a) && ValidStore(b) && a.history <= b.history && a.pruned <= b.pruned
  }

  ghost predicate Lifetime(stores: seq<Store>)
  {
    && (forall i :: 0 <= i < |stores| ==> ValidStore(stores[i]))
    && (forall i, j :: 0 <= i < j < |stores| ==> Evolves(stores[i], stores[j]))
  }

  function SequenceOf(after: Option<Cursor>): nat
  {
    if after.None? then 0 else after.value.sequence
  }

  /** A client that reads one page of each store in turn, the first from `after`, each other from the cursor the last one gave. */
  ghost function Follow(stores: seq<Store>, limit: int, after: Option<Cursor>): Option<(seq<Event>, Option<Cursor>)>
    requires forall i :: 0 <= i < |stores| ==> ValidStore(stores[i])
  {
    if |stores| == 0 then Some(([], after))
    else
      assert ValidStore(stores[0]);
      var page := ReadHistory(Seen(stores[0]), after, limit);
      if page.ResyncRequired? then None
      else
        var rest := Follow(stores[1..], limit, Some(page.nextCursor));
        if rest.None? then None else Some((page.items + rest.value.0, rest.value.1))
  }

  /**
   * Where a client's replay begins: at its cursor, or, without one, at the oldest event retained in the
   * first store whose page moves it off zero.
   */
  ghost function Origin(stores: seq<Store>, limit: int, after: Option<Cursor>): nat
    requires forall i :: 0 <= i < |stores| ==> ValidStore(stores[i])
  {
    if SequenceOf(after) > 0 || stores == [] then SequenceOf(after)
    else
      assert ValidStore(stores[0]);
      var page := ReadHistory(Seen(stores[0]), after, limit);
      if page.Page? && page.nextCursor.sequence == 0 then Origin(stores[1..], limit, Some(page.nextCursor))
      else Boundary(stores[0])
  }

  /** What a client has been given is what the last log shows from its start to the cursor it ends with. */
  ghost predicate FollowedExactly(stores: seq<Store>, limit: int, after: Option<Cursor>)
    requires Lifetime(stores) && stores != [] && Follow(stores, limit, after).Some?
  {
    var (items, end) := Follow(stores, limit, after).value;
    && end.Some?
    && items == Visible(stores[|stores| - 1].history, Origin(stores, limit, after), SequenceOf(end))
    && SequenceOf(after) <= SequenceOf(end) <= Last(stores[|stores| - 1].history)
  }

  /** Each production event after the start comes once and in order, whatever is appended or pruned between pages. */
  lemma {:induction false} FollowingPagesIsExact(stores: seq<Store>, limit: int, after: Option<Cursor>)
    requires Lifetime(stores) && stores != []
    requires Follow(stores, limit, after).Some?
    ensures FollowedExactly(stores, limit, after)
    ensures var (items, end) := Follow(stores, limit, after).value;
      && end.Some?
      && items == Visible(stores[|stores| - 1].history, Origin(stores, limit, after), SequenceOf(end))
      && SequenceOf(after) <= SequenceOf(end) <= Last(stores[|stores| - 1].history)
    decreases |stores|
  {
    FollowStep(stores, limit, after);
    if |stores| == 1 {
      OriginStep(stores, limit, after);
      LastPageIsExact(stores[0], after, limit);
    } else {
      LaterStores(stores);
      FollowingPagesIsExact(stores[1..], limit, Some(ReadHistory(Seen(stores[0]), after, limit).nextCursor));
      FirstPageJoins(stores, limit, after);
    }
  }

  lemma {:induction false} FirstPageJoins(stores: seq<Store>, limit: int, after: Option<Cursor>)
    requires Lifetime(stores) && |stores| > 1 && Lifetime(stores[1..]) && Follow(stores, limit, after).Some?
    requires ReadHistory(Seen(stores[0]), after, limit).Page?
    requires var next := Some(ReadHistory(Seen(stores[0]), after, limit).nextCursor);
      Follow(stores[1..], limit, next).Some? && FollowedExactly(stores[1..], limit, next)
    ensures FollowedExactly(stores, limit, after)
  {
    FollowStep(stores, limit, after);
    OriginStep(stores, limit, after);
    PageOfWholeLog(stores[0], after, limit);
    LaterStores(stores);
    var next := Some(ReadHistory(Seen(stores[0]), after, limit).nextCursor);
    var later, last := stores[1..], stores[|stores| - 1];
    var end := SequenceOf(Follow(later, limit, next).value.1);
    FirstPageThenRest(stores[0], last, SequenceOf(after), SequenceOf(next), end, Origin(later, limit, next));
  }

  lemma {:induction false} LastPageIsExact(store: Store, after: Option<Cursor>, limit: int)
    requires ValidStore(store) && ReadHistory(Seen(store), after, limit).Page?
    ensures var page, from := ReadHistory(Seen(store), after, limit), SequenceOf(after);
      && page.items == Visible(store.history, if page.nextCursor.sequence > 0 then Start(store, from) else 0, page.nextCursor.sequence)
      && from <= page.nextCursor.sequence <= Last(store.history)
  {
    PageOfWholeLog(store, after, limit);
    NothingUpToZero(store.history, Start(store, SequenceOf(after)));
  }

  lemma {:induction false} LaterStores(stores: seq<Store>)
    requires Lifetime(stores) && |stores| > 1
    ensures Lifetime(stores[1..]) && stores[1..][|stores| - 2] == stores[|stores| - 1]
    ensures Evolves(stores[0], stores[|stores| - 1])
  {
    var later := stores[1..];
    assert forall i :: 0 <= i < |later| ==> later[i] == stores[i + 1];
  }

  // A page that stays at zero shows nothing and leaves the start open; any other fixes it.
  lemma {:induction false} OriginStep(stores: seq<Store>, limit: int, after: Option<Cursor>)
    requires Lifetime(stores) && stores != [] && ReadHistory(Seen(stores[0]), after, limit).Page?
    ensures var next := Some(ReadHistory(Seen(stores[0]), after, limit).nextCursor);
      && SequenceOf(after) <= SequenceOf(next)
      && Origin(stores, limit, after) ==
           (if SequenceOf(next) > 0 then Start(stores[0], SequenceOf(after)) else Origin(stores[1..], limit, next))
      && (SequenceOf(next) > 0 ==> Origin(stores[1..], limit, next) == SequenceOf(next))
  {
    assert ValidStore(stores[0]);
    PageOfWholeLog(stores[0], after, limit);
  }

  lemma {:induction false} NothingUpToZero(history: seq<Event>, from: nat)
    requires Ordered(history)
    ensures Visible(history, from, 0) == [] == Visible(history, 0, 0)
  {
    VisibleNone(history, from, 0);
    VisibleNone(history, 0, 0);
  }

  lemma {:induction false} FirstPageThenRest(first: Store, last: Store, from: nat, next: nat, end: nat, origin: nat)
    requires Evolves(first, last) && from <= next <= end && next <= Last(first.history)
    requires next > 0 ==> Start(first, from) <= next && origin == next
    ensures Visible(first.history, Start(first, from), next) + Visible(last.history, origin, end)
      == Visible(last.history, if next > 0 then Start(first, from) else origin, end)
    ensures end <= Last(last.history) ==> from <= end
  {
    if next > 0 {
      PageThenRest(first.history, last.history, Start(first, from), next, end);
    } else {
      NothingUpToZero(first.history, Start(first, from));
    }
  }

  /** Without pruning a client that starts anywhere, at the very beginning too, misses nothing after its start. */
  lemma {:induction false} FollowingUnprunedPagesIsExact(stores: seq<Store>, limit: int, after: Option<Cursor>)
    requires Lifetime(stores) && stores != [] && forall i :: 0 <= i < |stores| ==> stores[i].pruned == 0
    requires Follow(stores, limit, after).Some?
    ensures var (items, end) := Follow(stores, limit, after).value;
      items == Visible(stores[|stores| - 1].history, SequenceOf(after), SequenceOf(end))
  {
    FollowingPagesIsExact(stores, limit, after);
    UnprunedOrigin(stores, limit, after);
  }

  lemma {:induction false} UnprunedOrigin(stores: seq<Store>, limit: int, after: Option<Cursor>)
    requires Lifetime(stores) && forall i :: 0 <= i < |stores| ==> stores[i].pruned == 0
    ensures Origin(stores, limit, after) == SequenceOf(after)
    decreases |stores|
  {
    if stores != [] && SequenceOf(after) == 0 {
      assert ValidStore(stores[0]);
      var page := ReadHistory(Seen(stores[0]), after, limit);
      if page.Page? && page.nextCursor.sequence == 0 {
        UnprunedOrigin(stores[1..], limit, Some(page.nextCursor));
      }
    }
  }

  lemma {:induction false} FollowStep(stores: seq<Store>, limit: int, after: Option<Cursor>)
    requires Lifetime(stores) && stores != [] && Follow(stores, limit, after).Some?
    ensures var page := ReadHistory(Seen(stores[0]), after, limit);
      && page.Page? && Follow(stores[1..], limit, Some(page.nextCursor)).Some?
      && var rest := Follow(stores[1..], limit, Some(page.nextCursor)).value;
         && Follow(stores, limit, after).value == (page.items + rest.0, rest.1)
         && (|stores| == 1 ==> page.items + rest.0 == page.items && rest.1 == Some(page.nextCursor))
  {
  }

  /** A page of an early log and what follows it in the later log join up. */
  lemma {:induction false} PageThenRest(early: seq<Event>, all: seq<Event>, from: nat, next: nat, end: nat)
    requires Ordered(all) && early <= all && from <= next <= end && next <= Last(early)
    ensures Visible(early, from, next) + Visible(all, next, end) == Visible(all, from, end)
  {
    assert all == early + all[|early|..];
    AppendKeepsVisible(early, all[|early|..], from, next);
    VisibleSplit(all, from, next, end);
  }

  // ---------------------------------------------------------------- pages are there

  /** A store still holds an event that a cursor has passed, or the one right after it. */
  ghost predicate Reaches(store: Store, sequence: nat)
    requires store.pruned <= |store.history|
  {
    exists i :: store.pruned <= i < |store.history| && store.history[i].sequence <= sequence + 1
  }

  /**
   * A cursor that a page handed on is accepted by every later store of the generation that reaches it; in
   * particular by every one from which nothing more was pruned.
   */
  lemma {:induction false} NextPageIsThere(a: Store, b: Store, after: Option<Cursor>, limit: int, nextLimit: int)
    requires Evolves(a, b) && a.generation == b.generation && ReadHistory(Seen(a), after, limit).Page?
    requires var next := ReadHistory(Seen(a), after, limit).nextCursor.sequence;
      next == 0 || b.pruned == a.pruned || Reaches(b, next)
    ensures ReadHistory(Seen(b), Some(ReadHistory(Seen(a), after, limit).nextCursor), nextLimit).Page?
  {
    PageIsExact(Seen(a), after, limit);
    var next := ReadHistory(Seen(a), after, limit).nextCursor.sequence;
    if next > 0 {
      PassedIsReached(a, after, limit);
      if b.pruned == a.pruned {
        ReachesLater(a, b, next);
      }
      AcceptedWhenReached(a, b, next, nextLimit);
    }
  }

  lemma {:induction false} PassedIsReached(store: Store, after: Option<Cursor>, limit: int)
    requires ValidStore(store) && ReadHistory(Seen(store), after, limit).Page?
    ensures var next := ReadHistory(Seen(store), after, limit).nextCursor.sequence;
      next > 0 ==> Reaches(store, next) && next <= Last(store.history)
  {
    var db, next := Seen(store), ReadHistory(Seen(store), after, limit).nextCursor.sequence;
    PageIsExact(db, after, limit);
    if next > 0 {
      FirstIsPassed(db, after, limit);
      RetainedEnds(store);
      assert store.history[store.pruned].sequence <= next + 1;
    }
  }

  lemma {:induction false} FirstIsPassed(db: Snapshot, after: Option<Cursor>, limit: int)
    requires Ordered(db.events) && ReadHistory(db, after, limit).Page? && ReadHistory(db, after, limit).nextCursor.sequence > 0
    ensures db.events != [] && First(db.events) <= ReadHistory(db, after, limit).nextCursor.sequence + 1
  {
    PageIsExact(db, after, limit);
    var page, from := ReadHistory(db, after, limit), Requested(db, after).sequence;
    if from == 0 && page.hasMore {
      VisibleIsPart(db.events, from, page.nextCursor.sequence);
      assert page.items[0] in db.events;
    }
  }

  lemma {:induction false} RetainedEnds(store: Store)
    requires ValidStore(store) && Seen(store).events != []
    ensures First(Seen(store).events) == store.history[store.pruned].sequence
    ensures Last(Seen(store).events) == Last(store.history)
  {
  }

  lemma {:induction false} ReachesLater(a: Store, b: Store, sequence: nat)
    requires Evolves(a, b) && b.pruned == a.pruned && Reaches(a, sequence)
    ensures Reaches(b, sequence)
  {
    var i :| a.pruned <= i < |a.history| && a.history[i].sequence <= sequence + 1;
    assert b.history[i] == a.history[i];
  }

  lemma {:induction false} AcceptedWhenReached(a: Store, b: Store, sequence: nat, limit: int)
    requires Evolves(a, b) && Reaches(b, sequence) && 0 < sequence <= Last(a.history)
    ensures ReadHistory(Seen(b), Some(Cursor(b.generation, sequence)), limit).Page?
  {
    var i :| b.pruned <= i < |b.history| && b.history[i].sequence <= sequence + 1;
    assert |Seen(b).events| == |b.history| - b.pruned > 0;
    RetainedEnds(b);
    assert b.history[b.pruned].sequence <= b.history[i].sequence;
    LogNeverShrinks(a, b);
  }

  lemma {:induction false} LogNeverShrinks(a: Store, b: Store)
    requires Evolves(a, b)
    ensures Last(a.history) <= Last(b.history)
  {
    if a.history != [] {
      assert b.history[|a.history| - 1] == a.history[|a.history| - 1];
    }
  }

  ghost predicate Steady(stores: seq<Store>)
  {
    forall i, j :: 0 <= i < j < |stores| ==> stores[i].generation == stores[j].generation && stores[i].pruned == stores[j].pruned
  }

  /** A client whose first read is accepted is never turned away while nothing is pruned and the generation stays. */
  lemma {:induction false} FollowIsNeverRefused(stores: seq<Store>, limit: int, after: Option<Cursor>)
    requires Lifetime(stores) && Steady(stores)
    requires stores != [] ==> ReadHistory(Seen(stores[0]), after, limit).Page?
    ensures Follow(stores, limit, after).Some?
    decreases |stores|
  {
    if |stores| > 1 {
      LaterStores(stores);
      assert Evolves(stores[0], stores[1]);
      NextPageIsThere(stores[0], stores[1], after, limit, limit);
      FollowIsNeverRefused(stores[1..], limit, Some(ReadHistory(Seen(stores[0]), after, limit).nextCursor));
    } else if stores != [] {
      assert stores[1..] == [];
    }
  }

  /** In particular one that starts at the beginning, and it then gets every production event that was retained. */
  lemma {:induction false} FollowFromTheStart(stores: seq<Store>, limit: int)
    requires Lifetime(stores) && Steady(stores) && stores != [] && stores[0].pruned == 0
    ensures Follow(stores, limit, None).Some?
    ensures Follow(stores, limit, None).value.0 ==
      Visible(stores[|stores| - 1].history, 0, SequenceOf(Follow(stores, limit, None).value.1))
  {
    FollowIsNeverRefused(stores, limit, None);
    assert forall i :: 0 <= i < |stores| ==> stores[i].pruned == 0;
    FollowingUnprunedPagesIsExact(stores, limit, None);
  }

  // ---------------------------------------------------------------- the stream

  datatype Output =
    | Published(event: Event, at: Cursor)
    | Synced(at: Cursor)
    | Heartbeat
    | Resync(reason: Reason, current: Cursor)

  datatype Phase = Reading | Waiting | Closed

  datatype Session = Session(
    cursor: Option<Cursor>,
    synchronized: Option<Cursor>,
    emitted: nat,
    commitGeneration: nat,
    timedOut: bool,
    phase: Phase)

  function Publish(items: seq<Event>, generation: nat): (out: seq<Output>)
    ensures |out| == |items|
    ensures forall i :: 0 <= i < |items| ==> out[i] == Published(items[i], Cursor(generation, items[i].sequence))
  {
    if items == [] then []
    else
      var last := items[|items| - 1];
      Publish(items[..|items| - 1], generation) + [Published(last, Cursor(generation, last.sequence))]
  }

  /** How many items of a page go out before the event budget is used up; a budget always lets one out. */
  function Allowed(available: nat, emitted: nat, maxEvents: Option<int>): nat
  {
    if maxEvents.None? || available == 0 then available
    else if maxEvents.value <= emitted + 1 then 1
    else if maxEvents.value - emitted < available then maxEvents.value - emitted
    else available
  }

  predicate BudgetSpent(published: nat, emitted: nat, maxEvents: Option<int>)
  {
    published > 0 && maxEvents.Some? && emitted + published >= maxEvents.value
  }

  /** What one pass over a page does to the session and what it sends. */
  function ReadTurn(s: Session, reply: History, maxEvents: Option<int>): (Session, seq<Output>)
  {
    match reply
    case ResyncRequired(reason, current) => (s.(phase := Closed), [Resync(reason, current)])
    case Page(items, next, more) =>
      var n := Allowed(|items|, s.emitted, maxEvents);
      var generation := next.authorityGeneration;
      var sent := Publish(items[..n], generation);
      if BudgetSpent(n, s.emitted, maxEvents) then
        (s.(cursor := Some(Cursor(generation, items[n - 1].sequence)), emitted := s.emitted + n, phase := Closed), sent)
      else if more then
        (s.(cursor := Some(next), emitted := s.emitted + n), sent)
      else
        (Session(Some(next), Some(next), s.emitted + n, s.commitGeneration, false, if s.timedOut then Reading else Waiting),
         sent + Barrier(s, next))
  }

  /** What follows the last page: a barrier where the cursor moved, and the heartbeat of a timeout. */
  function Barrier(s: Session, next: Cursor): seq<Output>
  {
    (if s.synchronized == Some(next) then [] else [Synced(next)]) + (if s.timedOut then [Heartbeat] else [])
  }

  function WaitTurn(s: Session, observed: nat): Session
  {
    if observed != s.commitGeneration then s.(commitGeneration := observed, phase := Reading)
    else s.(timedOut := true, phase := Reading)
  }

  ghost predicate HeartbeatLast(out: seq<Output>)
  {
    out != [] && out[|out| - 1] == Heartbeat
  }

  /**
   * A wait, then the pass over the page that catches up: the client hears a heartbeat, once and last,
   * exactly when nothing was committed during the wait; the stream then reads once more before it waits
   * again. After a commit it waits with the generation it saw.
   */
  lemma {:induction false} WaitThenCatchUp(s: Session, observed: nat, reply: History, maxEvents: Option<int>)
    requires s.phase == Waiting && !s.timedOut
    requires reply.Page? && !reply.hasMore && !BudgetSpent(Allowed(|reply.items|, s.emitted, maxEvents), s.emitted, maxEvents)
    ensures var (after, sent) := ReadTurn(WaitTurn(s, observed), reply, maxEvents);
      && (HeartbeatLast(sent) <==> observed == s.commitGeneration)
      && (forall k :: 0 <= k < |sent| && sent[k].Heartbeat? ==> k == |sent| - 1)
      && ((exists k :: 0 <= k < |sent| && sent[k] == Synced(reply.nextCursor)) <==> s.synchronized != Some(reply.nextCursor))
      && after.phase == (if observed == s.commitGeneration then Reading else Waiting)
      && after.commitGeneration == observed && !after.timedOut
      && after.cursor == after.synchronized == Some(reply.nextCursor)
  {
    var (after, sent) := ReadTurn(WaitTurn(s, observed), reply, maxEvents);
    var published := Publish(reply.items[..Allowed(|reply.items|, s.emitted, maxEvents)], reply.nextCursor.authorityGeneration);
    assert sent == published + Barrier(WaitTurn(s, observed), reply.nextCursor);
    if s.synchronized != Some(reply.nextCursor) {
      assert sent[|published|] == Synced(reply.nextCursor);
    }
  }

  class Stream {
    const maxEvents: Option<int>
    var cursor: Option<Cursor>
    var synchronized: Option<Cursor>
    var emitted: nat
    var commitGeneration: nat
    var timedOut: bool
    var phase: Phase

    function State(): Session
      reads this
    {
      Session(cursor, synchronized, emitted, commitGeneration, timedOut, phase)
    }

    constructor (after: Option<Cursor>, commits: nat, maxEvents: Option<int>)
      ensures State() == Session(after, None, 0, commits, false, Reading) && this.maxEvents == maxEvents
    {
      this.maxEvents := maxEvents;
      cursor, synchronized, emitted, commitGeneration := after, None, 0, commits;
      timedOut, phase := false, Reading;
    }

    method ReadOnce(db: Snapshot) returns (out: seq<Output>)
      requires phase == Reading
      modifies this
      ensures (State(), out) == ReadTurn(old(State()), ReadHistory(db, old(cursor), PAGE_LIMIT), maxEvents)
    {
      var page := ReadHistory(db, cursor, PAGE_LIMIT);
      out := Relay(page);
    }

    method Relay(page: History) returns (out: seq<Output>)
      requires phase == Reading
      modifies this
      ensures (State(), out) == ReadTurn(old(State()), page, maxEvents)
    {
      if page.ResyncRequired? {
        phase := Closed;
        return [Resync(page.reason, page.current)];
      }
      var spent;
      out, spent := SendItems(page.items, page.nextCursor.authorityGeneration);
      if spent {
        phase := Closed;
        return;
      }
      assert page.items[..|page.items|] == page.items;
      cursor := Some(page.nextCursor);
      if page.hasMore {
        return;
      }
      ghost var sent := out;
      if cursor != synchronized {
        synchronized := cursor;
        out := out + [Synced(page.nextCursor)];
      }
      if timedOut {
        timedOut := false;
        out := out + [Heartbeat];
        assert out == sent + Barrier(old(State()), page.nextCursor);
        return;
      }
      phase := Waiting;
      assert out == sent + Barrier(old(State()), page.nextCursor);
    }

    /** The loop over a page's items; it stops at the item that uses up the event budget. */
    method SendItems(items: seq<Event>, generation: nat) returns (out: seq<Output>, spent: bool)
      modifies this
      ensures var n := Allowed(|items|, old(emitted), maxEvents);
        && out == Publish(items[..n], generation)
        && spent == BudgetSpent(n, old(emitted), maxEvents)
        && (!spent ==> n == |items|)
        && State() == old(State()).(
             cursor := if n == 0 then old(cursor) else Some(Cursor(generation, items[n - 1].sequence)),
             emitted := old(emitted) + n)
    {
      out := [];
      for i := 0 to |items|
        invariant out == Publish(items[..i], generation)
        invariant cursor == if i == 0 then old(cursor) else Some(Cursor(generation, items[i - 1].sequence))
        invariant State() == old(State()).(cursor := cursor, emitted := old(emitted) + i)
        invariant maxEvents.Some? && i > 0 ==> old(emitted) + i < maxEvents.value
      {
        assert items[..i + 1][..i] == items[..i];
        cursor := Some(Cursor(generation, items[i].sequence));
        emitted := emitted + 1;
        out := out + [Published(items[i], Cursor(generation, items[i].sequence))];
        if maxEvents.Some? && emitted >= maxEvents.value {
          return out, true;
        }
      }
      return out, false;
    }

    method Await(observed: nat)
      modifies this
      ensures State() == WaitTurn(old(State()), observed)
    {
      if observed != commitGeneration {
        commitGeneration := observed;
        phase := Reading;
        return;
      }
      timedOut := true;
      phase := Reading;
    }
  }

  // ---------------------------------------------------------------- what was sent

  function EventsIn(out: seq<Output>): seq<Event>
  {
    if out == [] then []
    else
      var last := out[|out| - 1];
      if last.Published? then EventsIn(out[..|out| - 1]) + [last.event] else EventsIn(out[..|out| - 1])
  }

  lemma {:induction false} EventsInConcat(a: seq<Output>, b: seq<Output>)
    ensures EventsIn(a + b) == EventsIn(a) + EventsIn(b)
  {
    if b == [] {
      assert a + b == a;
    } else {
      assert (a + b)[..|a + b| - 1] == a + b[..|b| - 1];
      EventsInConcat(a, b[..|b| - 1]);
    }
  }

  lemma {:induction false} EventsInPublish(items: seq<Event>, generation: nat)
    ensures EventsIn(Publish(items, generation)) == items
  {
    if items != [] {
      EventsInPublish(items[..|items| - 1], generation);
      var out := Publish(items, generation);
      assert out[..|out| - 1] == Publish(items[..|items| - 1], generation);
    }
  }

  lemma {:induction false} PublishFront(items: seq<Event>, generation: nat, n: nat)
    requires n <= |items|
    ensures Publish(items, generation)[..n] == Publish(items[..n], generation)
  {
  }

  predicate HasCursor(o: Output)
  {
    o.Published? || o.Synced?
  }

  ghost predicate ExactAt(out: seq<Output>, history: seq<Event>, origin: nat, k: nat)
    requires k < |out|
  {
    HasCursor(out[k]) ==> EventsIn(out[..k + 1]) == Visible(history, origin, out[k].at.sequence)
  }

  /** Whenever a cursor was handed out, exactly the events from the start up to it had been sent. */
  ghost predicate Exact(out: seq<Output>, history: seq<Event>, origin: nat)
  {
    forall k {:trigger ExactAt(out, history, origin, k)} :: 0 <= k < |out| ==> ExactAt(out, history, origin, k)
  }

  ghost predicate CursorsWithin(out: seq<Output>, low: nat, high: nat)
  {
    forall k :: 0 <= k < |out| && HasCursor(out[k]) ==> low <= out[k].at.sequence <= high
  }

  // ---------------------------------------------------------------- runs

  /**
   * The stream beside everything else that can happen. A commit of this process is followed by its
   * notification; a commit of another process has none. `origin` and `missed` record history only:
   * where replay started, and whether another process committed since the last read.
   */
  datatype System = System(
    store: Store,
    commitGeneration: nat,
    pending: nat,
    session: Session,
    out: seq<Output>,
    origin: nat,
    missed: bool)

  datatype Step =
    | Commit(appended: seq<Event>)
    | Notify
    | ForeignCommit(appended: seq<Event>)
    | Prune(upTo: nat)
    | Reauthorize
    | Read
    | Wait

  function CursorSequence(s: Session): nat
  {
    if s.cursor.None? then 0 else s.cursor.value.sequence
  }

  ghost predicate Enabled(y: System, step: Step)
    requires ValidStore(y.store)
  {
    match step
    case Commit(appended) => Ordered(y.store.history + appended)
    case Notify => y.pending > 0
    case ForeignCommit(appended) => Ordered(y.store.history + appended)
    case Prune(upTo) => y.store.pruned <= upTo <= |y.store.history|
    case Reauthorize => true
    case Read => y.session.phase == Reading
    case Wait => y.session.phase == Waiting
  }

  ghost function Perform(y: System, step: Step, maxEvents: Option<int>): System
    requires ValidStore(y.store) && Enabled(y, step)
  {
    match step
    case Commit(appended) => y.(store := y.store.(history := y.store.history + appended), pending := y.pending + 1)
    case Notify => y.(pending := y.pending - 1, commitGeneration := y.commitGeneration + 1)
    case ForeignCommit(appended) => y.(store := y.store.(history := y.store.history + appended), missed := true)
    case Prune(upTo) => y.(store := y.store.(pruned := upTo))
    case Reauthorize => y.(store := y.store.(generation := y.store.generation + 1), pending := y.pending + 1)
    case Read => AfterRead(y, maxEvents)
    case Wait => y.(session := WaitTurn(y.session, y.commitGeneration))
  }

  ghost function AfterRead(y: System, maxEvents: Option<int>): System
    requires ValidStore(y.store)
  {
    var reply := ReadHistory(Seen(y.store), y.session.cursor, PAGE_LIMIT);
    var (session, sent) := ReadTurn(y.session, reply, maxEvents);
    y.(session := session, out := y.out + sent, missed := false,
       origin := if reply.Page? && CursorSequence(y.session) == 0 then Boundary(y.store) else y.origin)
  }

  ghost predicate Initial(y: System)
  {
    && ValidStore(y.store)
    && y.session == Session(y.session.cursor, None, 0, y.commitGeneration, false, Reading)
    && y.out == [] && y.origin == CursorSequence(y.session)
  }

  ghost predicate Inv(y: System)
  {
    var cursor := CursorSequence(y.session);
    && ValidStore(y.store)
    && y.session.commitGeneration <= y.commitGeneration
    && (cursor > 0 ==> y.origin <= cursor)
    && (cursor <= y.origin || cursor <= Last(y.store.history))
    && CursorsWithin(y.out, 0, cursor) && Exact(y.out, y.store.history, y.origin)
    && EventsIn(y.out) == Visible(y.store.history, y.origin, cursor)
    && (y.session.phase == Waiting && y.pending == 0 && !y.missed && y.commitGeneration == y.session.commitGeneration ==>
          Last(y.store.history) <= cursor || Last(y.store.history) == y.origin)
  }

  lemma {:induction false} InitialInv(y: System)
    requires Initial(y)
    ensures Inv(y)
  {
    VisibleNone(y.store.history, y.origin, y.origin);
  }

  lemma {:induction false} AppendKeepsInv(y: System, z: System, appended: seq<Event>)
    requires Inv(y) && Ordered(y.store.history + appended)
    requires z == y.(store := y.store.(history := y.store.history + appended), pending := z.pending, missed := z.missed)
    requires z.pending > 0 || z.missed
    ensures Inv(z)
  {
    var history, cursor := y.store.history, CursorSequence(y.session);
    AppendKeepsVisible(history, appended, y.origin, cursor);
    if history != [] {
      assert (history + appended)[|history| - 1] == history[|history| - 1];
    }
    assert Last(history) <= Last(history + appended);
    forall k | 0 <= k < |z.out| && HasCursor(z.out[k]) ensures ExactAt(z.out, z.store.history, z.origin, k) {
      assert ExactAt(y.out, history, y.origin, k);
      AppendKeepsVisible(history, appended, y.origin, y.out[k].at.sequence);
    }
  }

  lemma {:induction false} EventsInFront(items: seq<Event>, generation: nat, n: nat, k: nat)
    requires k <= n <= |items|
    ensures EventsIn(Publish(items[..n], generation)[..k]) == items[..k]
  {
    PublishFront(items[..n], generation, k);
    assert items[..n][..k] == items[..k];
    EventsInPublish(items[..k], generation);
  }

  /** The events a turn sends are exact from the place the read started. */
  lemma {:induction false} PublishedIsExact(items: seq<Event>, generation: nat, history: seq<Event>, from: nat, start: nat, upTo: nat, n: nat)
    requires Ordered(history) && items == Visible(history, start, upTo) && n <= |items| && from <= start
    ensures EventsIn(Publish(items[..n], generation)) == items[..n]
    ensures Exact(Publish(items[..n], generation), history, start)
    ensures CursorsWithin(Publish(items[..n], generation), from, if n == 0 then upTo else items[n - 1].sequence)
    ensures n > 0 ==> start < items[n - 1].sequence <= upTo && items[..n] == Visible(history, start, items[n - 1].sequence)
  {
    EventsInPublish(items[..n], generation);
    VisibleOrdered(history, start, upTo);
    if n > 0 {
      VisibleFront(history, start, upTo, n);
    }
    forall k | 0 <= k < n
      ensures ExactAt(Publish(items[..n], generation), history, start, k)
      ensures start < items[k].sequence
    {
      PublishedAt(items, generation, history, start, upTo, n, k);
    }
  }

  lemma {:induction false} PublishedAt(items: seq<Event>, generation: nat, history: seq<Event>, start: nat, upTo: nat, n: nat, k: nat)
    requires Ordered(history) && items == Visible(history, start, upTo) && k < n <= |items|
    ensures ExactAt(Publish(items[..n], generation), history, start, k)
    ensures start < items[k].sequence
  {
    EventsInFront(items, generation, n, k + 1);
    VisibleFront(history, start, upTo, k + 1);
  }

  /** A barrier after the last event keeps the turn exact. */
  lemma {:induction false} BarrierIsExact(out: seq<Output>, s: Session, next: Cursor, history: seq<Event>, from: nat, start: nat)
    requires Exact(out, history, start) && EventsIn(out) == Visible(history, start, next.sequence)
    requires CursorsWithin(out, from, next.sequence) && from <= next.sequence
    ensures Exact(out + Barrier(s, next), history, start) && CursorsWithin(out + Barrier(s, next), from, next.sequence)
    ensures EventsIn(out + Barrier(s, next)) == EventsIn(out)
  {
    var tail := Barrier(s, next);
    assert tail[..|tail|] == tail;
    SilentSuffix(out, tail, |tail|);
    forall k | 0 <= k < |out + tail| ensures ExactAt(out + tail, history, start, k) {
      if k < |out| {
        ExactStays(out, tail, history, start, k);
      } else {
        BarrierAt(out, tail, next, history, start, k - |out|);
      }
    }
    BarrierCursors(out, tail, next, from);
  }

  lemma {:induction false} BarrierCursors(out: seq<Output>, tail: seq<Output>, next: Cursor, from: nat)
    requires CursorsWithin(out, from, next.sequence) && from <= next.sequence
    requires forall k :: 0 <= k < |tail| && HasCursor(tail[k]) ==> tail[k] == Synced(next)
    ensures CursorsWithin(out + tail, from, next.sequence)
  {
    forall k | 0 <= k < |out + tail| && HasCursor((out + tail)[k]) ensures from <= (out + tail)[k].at.sequence <= next.sequence {
      if k < |out| {
        assert (out + tail)[k] == out[k];
      } else {
        assert (out + tail)[k] == tail[k - |out|];
      }
    }
  }

  lemma {:induction false} ExactStays(out: seq<Output>, tail: seq<Output>, history: seq<Event>, start: nat, k: nat)
    requires k < |out| && Exact(out, history, start)
    ensures ExactAt(out + tail, history, start, k)
  {
    assert ExactAt(out, history, start, k);
    assert (out + tail)[k] == out[k] && (out + tail)[..k + 1] == out[..k + 1];
  }

  lemma {:induction false} BarrierAt(out: seq<Output>, tail: seq<Output>, next: Cursor, history: seq<Event>, start: nat, j: nat)
    requires Silent(tail) && j < |tail| && EventsIn(out) == Visible(history, start, next.sequence)
    requires HasCursor(tail[j]) ==> tail[j] == Synced(next)
    ensures ExactAt(out + tail, history, start, |out| + j)
  {
    SilentSuffix(out, tail, j + 1);
    assert (out + tail)[|out| + j] == tail[j] && (out + tail)[..|out| + j + 1] == out + tail[..j + 1];
  }

  lemma {:induction false} SilentSuffix(out: seq<Output>, tail: seq<Output>, n: nat)
    requires Silent(tail) && n <= |tail|
    ensures EventsIn(out + tail[..n]) == EventsIn(out)
  {
    SilentFront(tail, n);
    EventsInConcat(out, tail[..n]);
  }

  /** Everything one read sends is exact from the place the read started. */
  lemma {:induction false} SentIsExact(s: Session, reply: History, maxEvents: Option<int>, history: seq<Event>, from: nat, start: nat)
    requires Ordered(history) && reply.Page? && reply.items == Visible(history, start, reply.nextCursor.sequence)
    requires from <= reply.nextCursor.sequence && from <= start
    ensures var (after, sent) := ReadTurn(s, reply, maxEvents);
      && after.cursor.Some?
      && Exact(sent, history, start)
      && EventsIn(sent) == Visible(history, start, after.cursor.value.sequence)
      && CursorsWithin(sent, from, after.cursor.value.sequence)
      && from <= after.cursor.value.sequence <= reply.nextCursor.sequence
      && (after.cursor.value.sequence < reply.nextCursor.sequence ==> start < after.cursor.value.sequence)
  {
    var n, next := Allowed(|reply.items|, s.emitted, maxEvents), reply.nextCursor;
    PublishedIsExact(reply.items, next.authorityGeneration, history, from, start, next.sequence, n);
    var sent := Publish(reply.items[..n], next.authorityGeneration);
    if !BudgetSpent(n, s.emitted, maxEvents) {
      assert n == |reply.items| && reply.items[..n] == reply.items;
      assert CursorsWithin(sent, from, next.sequence);
      if !reply.hasMore {
        BarrierIsExact(sent, s, next, history, from, start);
      }
    }
  }

  predicate Silent(out: seq<Output>)
  {
    forall k :: 0 <= k < |out| ==> !out[k].Published?
  }

  lemma {:induction false} SilentFront(out: seq<Output>, n: nat)
    requires Silent(out) && n <= |out|
    ensures EventsIn(out[..n]) == []
  {
    if n > 0 {
      assert out[..n][..n - 1] == out[..n - 1];
      SilentFront(out, n - 1);
    }
  }

  lemma {:induction false} ReadKeepsInv(y: System, maxEvents: Option<int>)
    requires Inv(y) && y.session.phase == Reading
    ensures Inv(AfterRead(y, maxEvents))
  {
    var reply := ReadHistory(Seen(y.store), y.session.cursor, PAGE_LIMIT);
    if reply.ResyncRequired? {
      RefusalKeepsInv(y, Resync(reply.reason, reply.current), AfterRead(y, maxEvents));
    } else {
      PageKeepsInv(y, maxEvents);
    }
  }

  lemma {:induction false} RefusalKeepsInv(y: System, o: Output, z: System)
    requires Inv(y) && o.Resync? && z == y.(session := y.session.(phase := Closed), out := y.out + [o], missed := false)
    ensures Inv(z)
  {
    EventsInConcat(y.out, [o]);
    ResyncKeepsExact(y.out, o, y.store.history, y.origin);
  }

  lemma {:induction false} PageKeepsInv(y: System, maxEvents: Option<int>)
    requires Inv(y) && y.session.phase == Reading
    requires ReadHistory(Seen(y.store), y.session.cursor, PAGE_LIMIT).Page?
    ensures Inv(AfterRead(y, maxEvents))
  {
    var reply := ReadHistory(Seen(y.store), y.session.cursor, PAGE_LIMIT);
    var (session, sent) := ReadTurn(y.session, reply, maxEvents);
    var cursor := CursorSequence(y.session);
    PageOfWholeLog(y.store, y.session.cursor, PAGE_LIMIT);
    var start := Start(y.store, cursor);
    SentIsExact(y.session, reply, maxEvents, y.store.history, cursor, start);
    WaitsAtTheEnd(y.session, reply, maxEvents);
    TurnKeepsInv(y, AfterRead(y, maxEvents), sent, start, reply.nextCursor.sequence);
  }

  lemma {:induction false} WaitsAtTheEnd(s: Session, reply: History, maxEvents: Option<int>)
    requires s.phase == Reading && reply.Page?
    ensures var after := ReadTurn(s, reply, maxEvents).0;
      && after.commitGeneration == s.commitGeneration
      && (after.phase == Waiting ==> !reply.hasMore && after.cursor == Some(reply.nextCursor))
  {
  }

  // A turn whose events are exact from where the read started continues the run.
  lemma {:induction false} TurnKeepsInv(y: System, z: System, sent: seq<Output>, start: nat, next: nat)
    requires Inv(y) && z == y.(session := z.session, out := y.out + sent, missed := false, origin := z.origin)
    requires z.session.commitGeneration == y.session.commitGeneration
    requires if CursorSequence(y.session) == 0 then z.origin == start else start == CursorSequence(y.session) && z.origin == y.origin
    requires var end := CursorSequence(z.session);
      && CursorSequence(y.session) <= end <= next <= Last(y.store.history)
      && Exact(sent, y.store.history, start) && CursorsWithin(sent, CursorSequence(y.session), end)
      && EventsIn(sent) == Visible(y.store.history, start, end)
      && (end < next ==> start < end) && (next > 0 ==> start <= next)
      && (z.session.phase == Waiting ==> end == next && (Last(y.store.history) <= next || Last(y.store.history) == start))
    ensures Inv(z)
  {
    var history, cursor := y.store.history, CursorSequence(y.session);
    if cursor == 0 {
      VisibleNone(history, y.origin, 0);
    }
    ExactConcat(y.out, sent, history, y.origin, cursor, z.origin, start, CursorSequence(z.session));
  }

  lemma {:induction false} ResyncKeepsExact(out: seq<Output>, o: Output, history: seq<Event>, origin: nat)
    requires Exact(out, history, origin) && o.Resync?
    ensures Exact(out + [o], history, origin) && EventsIn([o]) == []
  {
    assert [o][..0] == [];
    forall k | 0 <= k < |out + [o]| ensures ExactAt(out + [o], history, origin, k) {
      if k < |out| {
        assert ExactAt(out, history, origin, k);
        assert (out + [o])[..k + 1] == out[..k + 1];
      }
    }
  }

  /** Exactness of a run so far and of one more turn give exactness of both together. */
  lemma {:induction false} ExactConcat(out: seq<Output>, sent: seq<Output>, history: seq<Event>, origin: nat, cursor: nat,
                                       newOrigin: nat, start: nat, end: nat)
    requires Ordered(history) && cursor <= end
    requires Exact(out, history, origin) && CursorsWithin(out, 0, cursor) && EventsIn(out) == Visible(history, origin, cursor)
    requires Exact(sent, history, start) && CursorsWithin(sent, cursor, end) && EventsIn(sent) == Visible(history, start, end)
    requires if cursor == 0 then newOrigin == start else start == cursor && newOrigin == origin && origin <= cursor
    ensures Exact(out + sent, history, newOrigin) && CursorsWithin(out + sent, 0, end)
    ensures EventsIn(out + sent) == Visible(history, newOrigin, end)
  {
    EventsInConcat(out, sent);
    JoinAt(history, origin, cursor, newOrigin, start, end, EventsIn(out));
    forall k | 0 <= k < |out + sent| ensures ExactAt(out + sent, history, newOrigin, k) {
      if k < |out| {
        ExactBefore(out, sent, history, origin, cursor, newOrigin, k);
      } else {
        ExactAfter(out, sent, history, origin, cursor, newOrigin, start, end, k - |out|);
      }
    }
  }

  lemma {:induction false} ExactBefore(out: seq<Output>, sent: seq<Output>, history: seq<Event>, origin: nat, cursor: nat, newOrigin: nat, k: nat)
    requires Ordered(history) && k < |out| && ExactAt(out, history, origin, k) && CursorsWithin(out, 0, cursor)
    requires cursor == 0 || newOrigin == origin
    ensures ExactAt(out + sent, history, newOrigin, k)
  {
    assert (out + sent)[k] == out[k] && (out + sent)[..k + 1] == out[..k + 1];
    if cursor == 0 {
      VisibleNone(history, origin, 0);
      VisibleNone(history, newOrigin, 0);
    }
  }

  lemma {:induction false} ExactAfter(out: seq<Output>, sent: seq<Output>, history: seq<Event>, origin: nat, cursor: nat, newOrigin: nat,
                                      start: nat, end: nat, j: nat)
    requires Ordered(history) && j < |sent| && ExactAt(sent, history, start, j) && CursorsWithin(sent, cursor, end)
    requires EventsIn(out) == Visible(history, origin, cursor)
    requires if cursor == 0 then newOrigin == start else start == cursor && newOrigin == origin && origin <= cursor
    ensures ExactAt(out + sent, history, newOrigin, |out| + j)
  {
    assert (out + sent)[|out| + j] == sent[j] && (out + sent)[..|out| + j + 1] == out + sent[..j + 1];
    if HasCursor(sent[j]) {
      EventsInConcat(out, sent[..j + 1]);
      JoinAt(history, origin, cursor, newOrigin, start, sent[j].at.sequence, EventsIn(out));
    }
  }

  lemma {:induction false} JoinAt(history: seq<Event>, origin: nat, cursor: nat, newOrigin: nat, start: nat, c: nat, before: seq<Event>)
    requires Ordered(history) && before == Visible(history, origin, cursor) && cursor <= c
    requires if cursor == 0 then newOrigin == start else start == cursor && newOrigin == origin && origin <= cursor
    ensures before + Visible(history, start, c) == Visible(history, newOrigin, c)
  {
    if cursor == 0 {
      VisibleNone(history, origin, 0);
    } else {
      VisibleSplit(history, origin, cursor, c);
    }
  }

  lemma {:induction false} StepKeepsInv(y: System, step: Step, maxEvents: Option<int>)
    requires Inv(y) && Enabled(y, step)
    ensures Inv(Perform(y, step, maxEvents))
  {
    var z := Perform(y, step, maxEvents);
    match step
    case Commit(appended) => AppendKeepsInv(y, z, appended);
    case ForeignCommit(appended) => AppendKeepsInv(y, z, appended);
    case Read => ReadKeepsInv(y, maxEvents);
    case _ =>
  }

  ghost predicate Run(trace: seq<System>, maxEvents: Option<int>)
  {
    && |trace| > 0 && Initial(trace[0])
    && (forall i :: 0 <= i < |trace| ==> ValidStore(trace[i].store))
    && forall i :: 0 <= i < |trace| - 1 ==> Follows(trace[i], trace[i + 1], maxEvents)
  }

  ghost predicate Follows(y: System, z: System, maxEvents: Option<int>)
    requires ValidStore(y.store)
  {
    exists step :: Enabled(y, step) && z == Perform(y, step, maxEvents)
  }

  lemma {:induction false} RunKeepsInv(trace: seq<System>, maxEvents: Option<int>, i: nat)
    requires Run(trace, maxEvents) && i < |trace|
    ensures Inv(trace[i])
  {
    if i == 0 {
      InitialInv(trace[0]);
    } else {
      RunKeepsInv(trace, maxEvents, i - 1);
      assert Follows(trace[i - 1], trace[i], maxEvents);
      var step :| Enabled(trace[i - 1], step) && trace[i] == Perform(trace[i - 1], step, maxEvents);
      StepKeepsInv(trace[i - 1], step, maxEvents);
    }
  }

  /**
   * In every run, whenever a barrier or an event hands out a cursor, the events sent so far are
   * exactly the production events after the starting point up to that cursor, in order, each once.
   */
  lemma {:induction false} BarriersAreExact(trace: seq<System>, maxEvents: Option<int>, i: nat, k: nat)
    requires Run(trace, maxEvents) && i < |trace|
    requires k < |trace[i].out| && HasCursor(trace[i].out[k])
    ensures EventsIn(trace[i].out[..k + 1]) == Visible(trace[i].store.history, trace[i].origin, trace[i].out[k].at.sequence)
  {
    RunKeepsInv(trace, maxEvents, i);
    assert ExactAt(trace[i].out, trace[i].store.history, trace[i].origin, k);
  }

  /**
   * No lost wake-up: a stream that waits with the current commit generation, with no notification
   * outstanding and no foreign commit since its last read, has sent everything after its start.
   */
  lemma {:induction false} NoLostWakeUp(trace: seq<System>, maxEvents: Option<int>, i: nat)
    requires Run(trace, maxEvents) && i < |trace|
    requires trace[i].session.phase == Waiting && trace[i].session.commitGeneration == trace[i].commitGeneration
    requires trace[i].pending == 0 && !trace[i].missed
    ensures EventsIn(trace[i].out) == Visible(trace[i].store.history, trace[i].origin, Last(trace[i].store.history))
  {
    RunKeepsInv(trace, maxEvents, i);
    var y := trace[i];
    var history, cursor, last := y.store.history, CursorSequence(y.session), Last(y.store.history);
    if last <= cursor {
      VisibleNone(history, last, cursor);
      if y.origin <= last {
        VisibleSplit(history, y.origin, last, cursor);
      } else {
        VisibleNone(history, y.origin, last);
        VisibleNone(history, y.origin, cursor);
      }
    } else {
      VisibleNone(history, y.origin, last);
      VisibleNone(history, y.origin, cursor);
    }
  }

  // ---------------------------------------------------------------- the stream is served

  /** The stream's own cursor is accepted by the store. */
  ghost predicate Attached(y: System)
    requires ValidStore(y.store)
  {
    ReadHistory(Seen(y.store), y.session.cursor, PAGE_LIMIT).Page?
  }

  ghost predicate NoResync(out: seq<Output>)
  {
    forall k :: 0 <= k < |out| ==> !out[k].Resync?
  }

  lemma {:induction false} AcceptedIsReached(store: Store, cursor: Cursor, limit: int)
    requires ValidStore(store) && cursor.sequence > 0 && ReadHistory(Seen(store), Some(cursor), limit).Page?
    ensures Reaches(store, cursor.sequence) && cursor.sequence <= Last(store.history)
  {
    RetainedEnds(store);
    assert store.history[store.pruned].sequence <= cursor.sequence + 1;
  }

  lemma {:induction false} GrowthStaysAttached(y: System, z: System)
    requires Evolves(y.store, z.store) && z.store.generation == y.store.generation && z.store.pruned == y.store.pruned
    requires Attached(y) && z.session.cursor == y.session.cursor
    ensures Attached(z)
  {
    if y.session.cursor.Some? && y.session.cursor.value.sequence > 0 {
      var cursor := y.session.cursor.value;
      AcceptedIsReached(y.store, cursor, PAGE_LIMIT);
      ReachesLater(y.store, z.store, cursor.sequence);
      AcceptedWhenReached(y.store, z.store, cursor.sequence, PAGE_LIMIT);
      assert cursor == Cursor(z.store.generation, cursor.sequence);
    }
  }

  lemma {:induction false} ShownIsAccepted(store: Store, after: Option<Cursor>, limit: int, k: nat)
    requires ValidStore(store) && ReadHistory(Seen(store), after, limit).Page? && k < |ReadHistory(Seen(store), after, limit).items|
    ensures var e := ReadHistory(Seen(store), after, limit).items[k];
      ReadHistory(Seen(store), Some(Cursor(store.generation, e.sequence)), limit).Page?
  {
    var db := Seen(store);
    var page := ReadHistory(db, after, limit);
    PageIsExact(db, after, limit);
    VisibleIsPart(db.events, Requested(db, after).sequence, page.nextCursor.sequence);
    var e := page.items[k];
    assert e in page.items;
    var i :| 0 <= i < |db.events| && db.events[i] == e;
    PageExactlyWithinTheLog(db, Some(Cursor(store.generation, e.sequence)), limit);
  }

  lemma {:induction false} PublishesNoResync(items: seq<Event>, generation: nat)
    ensures NoResync(Publish(items, generation))
  {
  }

  lemma {:induction false} ReadStaysAttached(y: System, maxEvents: Option<int>)
    requires ValidStore(y.store) && Attached(y) && NoResync(y.out)
    ensures Attached(AfterRead(y, maxEvents)) && NoResync(AfterRead(y, maxEvents).out)
  {
    var reply := ReadHistory(Seen(y.store), y.session.cursor, PAGE_LIMIT);
    var (after, sent) := ReadTurn(y.session, reply, maxEvents);
    PageIsExact(Seen(y.store), y.session.cursor, PAGE_LIMIT);
    NextPageIsThere(y.store, y.store, y.session.cursor, PAGE_LIMIT, PAGE_LIMIT);
    var n := Allowed(|reply.items|, y.session.emitted, maxEvents);
    PublishesNoResync(reply.items[..n], reply.nextCursor.authorityGeneration);
    if BudgetSpent(n, y.session.emitted, maxEvents) {
      ShownIsAccepted(y.store, y.session.cursor, PAGE_LIMIT, n - 1);
    }
    assert NoResync(sent);
  }

  lemma {:induction false} StepStaysAttached(y: System, step: Step, maxEvents: Option<int>)
    requires ValidStore(y.store) && Enabled(y, step) && Attached(y) && NoResync(y.out)
    requires var z := Perform(y, step, maxEvents); z.store.generation == y.store.generation && z.store.pruned == y.store.pruned
    requires ValidStore(Perform(y, step, maxEvents).store)
    ensures Attached(Perform(y, step, maxEvents)) && NoResync(Perform(y, step, maxEvents).out)
  {
    if step.Read? {
      ReadStaysAttached(y, maxEvents);
    } else {
      GrowthStaysAttached(y, Perform(y, step, maxEvents));
    }
  }

  /** A stream that starts at an accepted cursor is never told to resynchronise while nothing is pruned and the generation stays. */
  lemma {:induction false} StreamIsNeverRefused(trace: seq<System>, maxEvents: Option<int>, i: nat)
    requires Run(trace, maxEvents) && i < |trace| && Attached(trace[0])
    requires forall k :: 0 <= k < |trace| ==>
      trace[k].store.generation == trace[0].store.generation && trace[k].store.pruned == trace[0].store.pruned
    ensures Attached(trace[i]) && NoResync(trace[i].out)
  {
    if i > 0 {
      StreamIsNeverRefused(trace, maxEvents, i - 1);
      assert Follows(trace[i - 1], trace[i], maxEvents);
      var step :| Enabled(trace[i - 1], step) && trace[i] == Perform(trace[i - 1], step, maxEvents);
      StepStaysAttached(trace[i - 1], step, maxEvents);
    }
  }

  /** So many reads in a row, with no event budget. */
  ghost function ReadTimes(y: System, n: nat): System
    requires ValidStore(y.store)
    decreases n
  {
    if n == 0 then y else ReadTimes(AfterRead(y, None), n - 1)
  }

  ghost predicate KeepsReading(y: System, n: nat)
    requires ValidStore(y.store)
    decreases n
  {
    n == 0 || (y.session.phase == Reading && KeepsReading(AfterRead(y, None), n - 1))
  }

  /**
   * Undisturbed, a reading stream catches up: after some number of reads, each of which it makes by itself, it
   * has sent everything there is, has put a barrier at the end of the log and waits, or, after a timeout, reads on.
   */
  lemma {:induction false} CatchesUp(y: System) returns (n: nat)
    requires Inv(y) && Attached(y) && y.session.phase == Reading
    ensures n > 0 && KeepsReading(y, n)
    ensures var z, end := ReadTimes(y, n), Cursor(y.store.generation, Last(Seen(y.store).events));
      && z.store == y.store && z.session.cursor == z.session.synchronized == Some(end)
      && z.session.phase == (if y.session.timedOut then Reading else Waiting)
      && EventsIn(z.out) == Visible(z.store.history, z.origin, end.sequence)
    decreases Last(Seen(y.store).events) - CursorSequence(y.session)
  {
    var next := AfterRead(y, None);
    ReadMovesOn(y);
    ReadKeepsInv(y, None);
    if ReadHistory(Seen(y.store), y.session.cursor, PAGE_LIMIT).hasMore {
      n := CatchesUp(next);
      n := n + 1;
    } else {
      n := 1;
      assert ReadTimes(y, 1) == ReadTimes(next, 0) == next && KeepsReading(next, 0);
    }
  }

  // A read either leaves more and is further along, or has put its barrier at the end of the log.
  lemma {:induction false} ReadMovesOn(y: System)
    requires ValidStore(y.store) && Attached(y) && y.session.phase == Reading
    ensures var next, last := AfterRead(y, None), Last(Seen(y.store).events);
      && next.store == y.store
      && if ReadHistory(Seen(y.store), y.session.cursor, PAGE_LIMIT).hasMore
         then && Attached(next) && next.session.phase == Reading && next.session.timedOut == y.session.timedOut
              && CursorSequence(y.session) < CursorSequence(next.session) <= last
         else && next.session.cursor == next.session.synchronized == Some(Cursor(y.store.generation, last))
              && next.session.phase == (if y.session.timedOut then Reading else Waiting)
  {
    var reply := ReadHistory(Seen(y.store), y.session.cursor, PAGE_LIMIT);
    PageIsExact(Seen(y.store), y.session.cursor, PAGE_LIMIT);
    NextPageIsThere(y.store, y.store, y.session.cursor, PAGE_LIMIT, PAGE_LIMIT);
    assert Allowed(|reply.items|, y.session.emitted, None) == |reply.items|;
  }

  // ---------------------------------------------------------------- the event budget

  /** As many events were sent as were counted, and while the stream is open the budget is not used up. */
  ghost predicate BudgetInv(y: System, maxEvents: Option<int>)
  {
    && |EventsIn(y.out)| == y.session.emitted
    && (maxEvents.Some? && y.session.phase != Closed && y.session.emitted > 0 ==> y.session.emitted < maxEvents.value)
    && (maxEvents.Some? ==> y.session.emitted <= 1 || y.session.emitted <= maxEvents.value)
  }

  lemma {:induction false} BarrierSendsNothing(s: Session, next: Cursor)
    ensures EventsIn(Barrier(s, next)) == []
  {
    var tail := Barrier(s, next);
    assert tail[..|tail|] == tail;
    SilentFront(tail, |tail|);
  }

  lemma {:induction false} TurnSends(s: Session, reply: History, maxEvents: Option<int>)
    requires reply.Page?
    ensures |EventsIn(ReadTurn(s, reply, maxEvents).1)| == Allowed(|reply.items|, s.emitted, maxEvents)
    ensures ReadTurn(s, reply, maxEvents).0.emitted == s.emitted + Allowed(|reply.items|, s.emitted, maxEvents)
  {
    var n := Allowed(|reply.items|, s.emitted, maxEvents);
    var sent := Publish(reply.items[..n], reply.nextCursor.authorityGeneration);
    EventsInPublish(reply.items[..n], reply.nextCursor.authorityGeneration);
    EventsInConcat(sent, Barrier(s, reply.nextCursor));
    BarrierSendsNothing(s, reply.nextCursor);
  }

  lemma {:induction false} ReadKeepsBudget(y: System, maxEvents: Option<int>)
    requires ValidStore(y.store) && y.session.phase == Reading && BudgetInv(y, maxEvents)
    ensures BudgetInv(AfterRead(y, maxEvents), maxEvents)
  {
    var reply := ReadHistory(Seen(y.store), y.session.cursor, PAGE_LIMIT);
    EventsInConcat(y.out, ReadTurn(y.session, reply, maxEvents).1);
    if reply.Page? {
      TurnSends(y.session, reply, maxEvents);
    } else {
      var sent := [Resync(reply.reason, reply.current)];
      assert sent[..0] == [] && EventsIn(sent) == [];
    }
  }

  /** A stream with an event budget sends no more events than that, or the one it always lets out, and closes with the last. */
  lemma {:induction false} BudgetIsKept(trace: seq<System>, maxEvents: Option<int>, i: nat)
    requires Run(trace, maxEvents) && i < |trace|
    ensures BudgetInv(trace[i], maxEvents)
    ensures maxEvents.Some? ==> |EventsIn(trace[i].out)| <= 1 || |EventsIn(trace[i].out)| <= maxEvents.value
    ensures maxEvents.Some? && |EventsIn(trace[i].out)| > 0 && |EventsIn(trace[i].out)| >= maxEvents.value ==> trace[i].session.phase == Closed
  {
    if i > 0 {
      BudgetIsKept(trace, maxEvents, i - 1);
      assert Follows(trace[i - 1], trace[i], maxEvents);
      FollowingKeepsBudget(trace[i - 1], trace[i], maxEvents);
    }
  }

  lemma {:induction false} FollowingKeepsBudget(y: System, z: System, maxEvents: Option<int>)
    requires ValidStore(y.store) && BudgetInv(y, maxEvents) && Follows(y, z, maxEvents)
    ensures BudgetInv(z, maxEvents)
  {
    var step :| Enabled(y, step) && z == Perform(y, step, maxEvents);
    if step.Read? {
      ReadKeepsBudget(y, maxEvents);
    } else {
      OtherStepsSendNothing(y, step, maxEvents);
    }
  }

  lemma {:induction false} OtherStepsSendNothing(y: System, step: Step, maxEvents: Option<int>)
    requires ValidStore(y.store) && Enabled(y, step) && !step.Read?
    ensures var z := Perform(y, step, maxEvents);
      && z.out == y.out && z.session.emitted == y.session.emitted
      && (z.session.phase == Closed <==> y.session.phase == Closed)
  {
  }
}
