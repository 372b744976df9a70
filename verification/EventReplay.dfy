// dashboard.py: cursor paging over the durable event log, and the live stream built on it.
module EventReplay {
  import opened Wrappers

  /** A durable event. Only production events are shown; the others are hidden. */
  datatype Event = Event(sequence: nat, production: bool, envelope: string)

  datatype Cursor = Cursor(authorityGeneration: nat, sequence: nat)

  /** What one read transaction sees: the authority generation and the retained events. */
  datatype Snapshot = Snapshot(generation: nat, events: seq<Event>)

  datatype Reason = AuthorityGenerationChanged | CursorPrunedOrInvalid

  datatype History =
    | Page(items: seq<Event>, nextCursor: Cursor, hasMore: bool)
    | ResyncRequired(reason: Reason, current: Cursor)

  ghost predicate Ordered(events: seq<Event>)
  {
    && (forall i :: 0 <= i < |events| ==> events[i].sequence > 0)
    && (forall i, j :: 0 <= i < j < |events| ==> events[i].sequence < events[j].sequence)
  }

  function First(events: seq<Event>): nat
  {
    if events == [] then 0 else events[0].sequence
  }

  function Last(events: seq<Event>): nat
  {
    if events == [] then 0 else events[|events| - 1].sequence
  }

  /** The production events above one sequence number and up to another, in order. */
  function Visible(events: seq<Event>, after: nat, upTo: nat): seq<Event>
  {
    if events == [] then []
    else if events[0].production && after < events[0].sequence <= upTo then [events[0]] + Visible(events[1..], after, upTo)
    else Visible(events[1..], after, upTo)
  }

  // ---------------------------------------------------------------- one history read

  function Requested(db: Snapshot, after: Option<Cursor>): Cursor
  {
    if after.None? then Cursor(db.generation, 0) else after.value
  }

  function EffectiveLimit(limit: int): nat
  {
    if limit < 1 then 1 else if limit > 1000 then 1000 else limit
  }

  /** The window test that turns a stale, pruned or future cursor away. */
  predicate OutOfWindow(db: Snapshot, sequence: nat)
  {
    sequence > Last(db.events) || (sequence > 0 && (First(db.events) == 0 || First(db.events) > sequence + 1))
  }

  function ReadHistory(db: Snapshot, after: Option<Cursor>, limit: int): History
  {
    var requested, last := Requested(db, after), Last(db.events);
    var current := Cursor(db.generation, last);
    if requested.authorityGeneration != db.generation then ResyncRequired(AuthorityGenerationChanged, current)
    else if OutOfWindow(db, requested.sequence) then ResyncRequired(CursorPrunedOrInvalid, current)
    else
      var size := EffectiveLimit(limit);
      var matching := Visible(db.events, requested.sequence, last);
      var rows := if |matching| > size + 1 then matching[..size + 1] else matching;
      var hasMore := |rows| > size;
      var items := if hasMore then rows[..size] else rows;
      Page(items, Cursor(db.generation, if hasMore then items[size - 1].sequence else last), hasMore)
  }

  // ---------------------------------------------------------------- visible events

  lemma {:induction false} VisibleIsPart(events: seq<Event>, after: nat, upTo: nat)
    ensures forall e :: e in Visible(events, after, upTo) <==> e in events && e.production && after < e.sequence <= upTo
  {
    if events != [] {
      VisibleIsPart(events[1..], after, upTo);
      assert events == [events[0]] + events[1..];
    }
  }

  lemma {:induction false} VisibleOrdered(events: seq<Event>, after: nat, upTo: nat)
    requires Ordered(events)
    ensures Ordered(Visible(events, after, upTo))
  {
    if events != [] {
      VisibleOrdered(events[1..], after, upTo);
      VisibleAbove(events[1..], after, upTo, events[0].sequence);
      PrependOrdered(events[0], Visible(events[1..], after, upTo));
    }
  }

  lemma {:induction false} VisibleAbove(events: seq<Event>, after: nat, upTo: nat, low: nat)
    requires forall i :: 0 <= i < |events| ==> low < events[i].sequence
    ensures forall i :: 0 <= i < |Visible(events, after, upTo)| ==> low < Visible(events, after, upTo)[i].sequence
  {
    if events != [] {
      VisibleAbove(events[1..], after, upTo, low);
    }
  }

  lemma {:induction false} PrependOrdered(e: Event, rest: seq<Event>)
    requires Ordered(rest) && e.sequence > 0 && forall i :: 0 <= i < |rest| ==> e.sequence < rest[i].sequence
    ensures Ordered([e] + rest)
  {
  }

  lemma {:induction false} VisibleConcat(a: seq<Event>, b: seq<Event>, after: nat, upTo: nat)
    ensures Visible(a + b, after, upTo) == Visible(a, after, upTo) + Visible(b, after, upTo)
  {
    if a == [] {
      assert a + b == b;
    } else {
      var first, second := Visible(a[1..], after, upTo), Visible(b, after, upTo);
      VisibleConcat(a[1..], b, after, upTo);
      assert (a + b)[1..] == a[1..] + b && (a + b)[0] == a[0];
      assert ([a[0]] + first) + second == [a[0]] + (first + second);
    }
  }

  lemma {:induction false} VisibleNone(events: seq<Event>, after: nat, upTo: nat)
    requires forall i :: 0 <= i < |events| ==> events[i].sequence <= after || events[i].sequence > upTo
    ensures Visible(events, after, upTo) == []
  {
    if events != [] {
      VisibleNone(events[1..], after, upTo);
    }
  }

  lemma {:induction false} VisibleSplit(events: seq<Event>, after: nat, mid: nat, upTo: nat)
    requires Ordered(events) && after <= mid <= upTo
    ensures Visible(events, after, upTo) == Visible(events, after, mid) + Visible(events, mid, upTo)
  {
    if events != [] {
      VisibleSplit(events[1..], after, mid, upTo);
      if events[0].sequence > mid {
        VisibleNone(events[1..], after, mid);
      }
    }
  }

  /** The front of a list of visible events is the visible events up to the last of the front. */
  lemma {:induction false} VisibleFront(events: seq<Event>, after: nat, upTo: nat, n: nat)
    requires Ordered(events) && 1 <= n <= |Visible(events, after, upTo)|
    ensures var cut := Visible(events, after, upTo)[n - 1].sequence;
      && after < cut <= upTo
      && Visible(events, after, upTo)[..n] == Visible(events, after, cut)
      && Visible(events, after, upTo)[n..] == Visible(events, cut, upTo)
  {
    var all := Visible(events, after, upTo);
    var cut := all[n - 1].sequence;
    VisibleIsPart(events, after, upTo);
    assert all[n - 1] in all;
    VisibleSplit(events, after, cut, upTo);
    VisibleOrdered(events, after, upTo);
    var front, back := Visible(events, after, cut), Visible(events, cut, upTo);
    VisibleIsPart(events, after, cut);
    VisibleIsPart(events, cut, upTo);
    assert all == front + back;
    forall i | 0 <= i < |front| ensures all[i].sequence <= cut {
      assert front[i] in front;
    }
    forall i | |front| <= i < |all| ensures all[i].sequence > cut {
      assert back[i - |front|] in back;
    }
    CutPosition(all, n, |front|, cut);
  }

  lemma {:induction false} CutPosition(all: seq<Event>, n: nat, split: nat, cut: nat)
    requires Ordered(all) && 1 <= n <= |all| && split <= |all| && all[n - 1].sequence == cut
    requires forall i :: 0 <= i < split ==> all[i].sequence <= cut
    requires forall i :: split <= i < |all| ==> all[i].sequence > cut
    ensures split == n
  {
    assert n < |all| ==> all[n - 1].sequence < all[n].sequence;
  }

  /**
   * One page holds exactly the production events from the cursor up to the cursor it hands on,
   * in order; hidden events are passed over, and more is promised exactly when more is there.
   */
  lemma {:induction false} PageIsExact(db: Snapshot, after: Option<Cursor>, limit: int)
    requires Ordered(db.events) && ReadHistory(db, after, limit).Page?
    ensures var page, from := ReadHistory(db, after, limit), Requested(db, after).sequence;
      && page.items == Visible(db.events, from, page.nextCursor.sequence)
      && from <= page.nextCursor.sequence <= Last(db.events)
      && page.nextCursor.authorityGeneration == db.generation
      && |page.items| <= EffectiveLimit(limit)
      && (page.hasMore <==> Visible(db.events, page.nextCursor.sequence, Last(db.events)) != [])
      && (page.hasMore ==> from < page.nextCursor.sequence && |page.items| == EffectiveLimit(limit))
      && (!page.hasMore ==> page.nextCursor.sequence == Last(db.events))
  {
    var from, last, size := Requested(db, after).sequence, Last(db.events), EffectiveLimit(limit);
    var matching := Visible(db.events, from, last);
    if |matching| > size {
      VisibleFront(db.events, from, last, size);
      assert matching[..size + 1][..size] == matching[..size];
      assert matching[size..] != [];
    } else {
      VisibleNone(db.events, last, last);
    }
  }

  /**
   * A page is given exactly for a cursor of this generation that is zero, or not beyond the last retained event
   * and not before the first by more than the next one.
   */
  lemma {:induction false} PageExactlyWithinTheLog(db: Snapshot, after: Option<Cursor>, limit: int)
    requires Ordered(db.events)
    ensures ReadHistory(db, after, limit).Page? <==>
      after.None?
      || (after.value.authorityGeneration == db.generation
          && (after.value.sequence == 0
              || (exists i, j :: 0 <= i <= j < |db.events| && db.events[i].sequence <= after.value.sequence + 1
                                 && after.value.sequence <= db.events[j].sequence)))
    ensures ReadHistory(db, after, limit).ResyncRequired? ==>
      && ReadHistory(db, after, limit).current == Cursor(db.generation, Last(db.events))
      && (ReadHistory(db, after, limit).reason == AuthorityGenerationChanged <==> after.value.authorityGeneration != db.generation)
  {
    if after.Some? && after.value.sequence > 0 && db.events != [] {
      var first, last := 0, |db.events| - 1;
      if db.events[first].sequence <= after.value.sequence + 1 && after.value.sequence <= db.events[last].sequence {
        assert 0 <= first <= last < |db.events|;
      }
    }
  }

  // ---------------------------------------------------------------- pruning

  /** `pruned` and `retained` are what became of the events ever appended. */
  ghost predicate Partition(history: seq<Event>, retained: seq<Event>, pruned: set<Event>)
  {
    && Ordered(history) && Ordered(retained)
    && (forall e :: e in history <==> e in retained || e in pruned)
    && (forall e :: e in retained ==> e !in pruned)
  }

  /** No event after the cursor was pruned. */
  ghost predicate NothingLostAfter(pruned: set<Event>, sequence: nat)
  {
    forall e :: e in pruned ==> e.sequence <= sequence
  }

  /** Pruning left nothing behind: no pruned event lies above the first retained one. */
  ghost predicate PrunedFromTheFront(retained: seq<Event>, pruned: set<Event>)
  {
    retained == [] || forall e :: e in pruned ==> e.sequence < First(retained)
  }

  /**
   * The window test is sound exactly when pruning works from the front. If an old event was left
   * behind, some positive cursor passes the test although an event after it is gone.
   */
  lemma {:induction false} WindowSoundExactlyForFrontPruning(history: seq<Event>, retained: seq<Event>, pruned: set<Event>, generation: nat)
    requires Partition(history, retained, pruned)
    ensures PrunedFromTheFront(retained, pruned) <==>
      forall c: nat :: c > 0 && !OutOfWindow(Snapshot(generation, retained), c) ==> NothingLostAfter(pruned, c)
  {
    var db := Snapshot(generation, retained);
    if retained != [] && !PrunedFromTheFront(retained, pruned) {
      var e :| e in pruned && e.sequence >= First(retained);
      assert retained[0] in retained;
      assert e != retained[0] && e in history && retained[0] in history;
      DistinctSequences(history, e, retained[0]);
      var c := First(retained);
      assert c > 0 && e.sequence > c;
      assert !OutOfWindow(db, c) && !NothingLostAfter(pruned, c);
    }
  }

  lemma {:induction false} DistinctSequences(events: seq<Event>, a: Event, b: Event)
    requires Ordered(events) && a in events && b in events && a != b
    ensures a.sequence != b.sequence
  {
    var i :| 0 <= i < |events| && events[i] == a;
    var j :| 0 <= j < |events| && events[j] == b;
  }

  /** An authority event that pruning must keep can leave a gap that the window test misses. */
  lemma {:induction false} RetainedAuthorityHidesAGap()
    ensures var audit, gone, later := Event(1, false, "read"), Event(2, true, "work"), Event(3, true, "work");
      && Partition([audit, gone, later], [audit, later], {gone})
      && ReadHistory(Snapshot(0, [audit, later]), Some(Cursor(0, 1)), 100) == Page([later], Cursor(0, 3), false)
      && !NothingLostAfter({gone}, 1)
  {
    var audit, later := Event(1, false, "read"), Event(3, true, "work");
    assert [audit, later][1..] == [later] && [later][1..] == [];
    assert Visible([later], 1, 3) == [later] + Visible([later][1..], 1, 3) == [later];
    assert Visible([audit, later], 1, 3) == [later];
  }
}
