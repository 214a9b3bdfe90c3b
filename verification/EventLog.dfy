/**
 The client's execution event log: `mergeExecutionEvents` in `workflow.ts` and
 the polling cursor of `useExecution.ts` that feeds it.
 */
module EventLog {
  datatype Event = Event(sequence: int, body: string)

  const MAX_SAFE_INTEGER: int := 0x1f_ffff_ffff_ffff

  predicate IsSafeInteger(n: int) {
    -MAX_SAFE_INTEGER <= n <= MAX_SAFE_INTEGER
  }

  predicate Accepts(e: Event, cursor: int) {
    IsSafeInteger(e.sequence) && e.sequence > cursor
  }

  function Max(a: int, b: int): int {
    if a < b then b else a
  }

  // ---- The source's `Map` from sequence number to event, filled in order -------
  // Every event is filed under its own sequence number, so the map is the set of
  // its values, no two of which share a number.

  ghost predicate DistinctSequences(events: set<Event>) {
    forall d, e :: d in events && e in events && d.sequence == e.sequence ==> d == e
  }

  function Put(index: set<Event>, e: Event): set<Event> {
    (set d | d in index && d.sequence != e.sequence) + {e}
  }

  function Indexed(events: seq<Event>): (index: set<Event>)
    ensures DistinctSequences(index)
  {
    if events == [] then {}
    else Put(Indexed(events[..|events| - 1]), events[|events| - 1])
  }

  function WithIncoming(index: set<Event>, incoming: seq<Event>, cursor: int): (all: set<Event>)
    requires DistinctSequences(index)
    ensures DistinctSequences(all)
  {
    if incoming == [] then index
    else
      var last := incoming[|incoming| - 1];
      var before := WithIncoming(index, incoming[..|incoming| - 1], cursor);
      if Accepts(last, cursor) then Put(before, last) else before
  }

  function CursorAfter(incoming: seq<Event>, cursor: int): int {
    if incoming == [] then cursor
    else
      var last := incoming[|incoming| - 1];
      var before := CursorAfter(incoming[..|incoming| - 1], cursor);
      if Accepts(last, cursor) then Max(before, last.sequence) else before
  }

  lemma {:induction false} FirstExists(events: set<Event>)
    requires events != {}
    ensures exists f :: f in events && forall e :: e in events ==> f.sequence <= e.sequence
  {
    var d :| d in events;
    if events == {d} {
      assert forall e :: e in events ==> d.sequence <= e.sequence;
    } else {
      var rest := events - {d};
      assert events == rest + {d};
      FirstExists(rest);
      var f :| f in rest && forall e :: e in rest ==> f.sequence <= e.sequence;
      var first := if d.sequence < f.sequence then d else f;
      assert first in events && forall e :: e in events ==> first.sequence <= e.sequence;
    }
  }

  function First(events: set<Event>): (f: Event)
    requires events != {} && DistinctSequences(events)
    ensures f in events && forall e :: e in events ==> f.sequence <= e.sequence
  {
    FirstExists(events);
    var f :| f in events && forall e :: e in events ==> f.sequence <= e.sequence;
    f
  }

  /** The filed events in ascending sequence order. */
  function Sorted(events: set<Event>): seq<Event>
    requires DistinctSequences(events)
  {
    if events == {} then []
    else [First(events)] + Sorted(events - {First(events)})
  }

  datatype Merged = Merged(events: seq<Event>, cursor: int)

  function Merge(current: seq<Event>, incoming: seq<Event>, cursor: int): Merged {
    Merged(Sorted(WithIncoming(Indexed(current), incoming, cursor)), CursorAfter(incoming, cursor))
  }

  method MergeExecutionEvents(current: seq<Event>, incoming: seq<Event>, cursor: int) returns (merged: Merged)
    ensures merged == Merge(current, incoming, cursor)
  {
    var bySequence: set<Event> := {};
    for i := 0 to |current|
      invariant bySequence == Indexed(current[..i])
    {
      assert current[..i + 1][..i] == current[..i];
      bySequence := Put(bySequence, current[i]);
    }
    assert current[..|current|] == current;
    var nextCursor := cursor;
    for i := 0 to |incoming|
      invariant bySequence == WithIncoming(Indexed(current), incoming[..i], cursor)
      invariant nextCursor == CursorAfter(incoming[..i], cursor)
    {
      assert incoming[..i + 1][..i] == incoming[..i];
      var event := incoming[i];
      if !IsSafeInteger(event.sequence) || event.sequence <= cursor {
        continue;
      }
      bySequence := Put(bySequence, event);
      nextCursor := Max(nextCursor, event.sequence);
    }
    assert incoming[..|incoming|] == incoming;
    merged := Merged(Sorted(bySequence), nextCursor);
  }

  // ---- What the merged log contains ---------------------------------------------

  ghost predicate StrictlySorted(events: seq<Event>) {
    forall i, j :: 0 <= i < j < |events| ==> events[i].sequence < events[j].sequence
  }

  lemma {:induction false} SortedHoldsExactly(events: set<Event>)
    requires DistinctSequences(events)
    ensures StrictlySorted(Sorted(events))
    ensures forall e :: e in Sorted(events) <==> e in events
  {
    if events != {} {
      var f, rest := First(events), events - {First(events)};
      SortedHoldsExactly(rest);
      assert Sorted(events) == [f] + Sorted(rest);
      assert forall e :: e in Sorted(events) <==> e == f || e in Sorted(rest);
    }
  }

  lemma {:induction false} IndexedFiles(events: seq<Event>)
    requires StrictlySorted(events)
    ensures forall e :: e in events <==> e in Indexed(events)
  {
    if events != [] {
      var init, last := events[..|events| - 1], events[|events| - 1];
      IndexedFiles(init);
      assert events == init + [last];
      assert forall e :: e in init ==> e.sequence < last.sequence;
    }
  }

  /** The cursor is the greatest of the old cursor and the accepted sequence numbers. */
  lemma {:induction false} CursorIsGreatest(incoming: seq<Event>, cursor: int)
    ensures cursor <= CursorAfter(incoming, cursor)
    ensures forall e :: e in incoming && Accepts(e, cursor) ==> e.sequence <= CursorAfter(incoming, cursor)
    ensures CursorAfter(incoming, cursor) == cursor
            || exists e :: e in incoming && Accepts(e, cursor) && e.sequence == CursorAfter(incoming, cursor)
  {
    if incoming != [] {
      var init, last := incoming[..|incoming| - 1], incoming[|incoming| - 1];
      CursorIsGreatest(init, cursor);
      assert incoming == init + [last];
      assert last in incoming;
    }
  }

  lemma {:induction false} WithIncomingAddsAccepted(index: set<Event>, incoming: seq<Event>, cursor: int)
    requires DistinctSequences(index) && forall e :: e in index ==> e.sequence <= cursor
    requires forall d, e :: d in incoming && e in incoming && d.sequence == e.sequence ==> d == e
    ensures var all := WithIncoming(index, incoming, cursor);
            forall e :: e in all <==> e in index || (e in incoming && Accepts(e, cursor))
  {
    if incoming != [] {
      var init, last := incoming[..|incoming| - 1], incoming[|incoming| - 1];
      assert incoming == init + [last];
      assert forall e :: e in init ==> e in incoming;
      assert last in incoming;
      WithIncomingAddsAccepted(index, init, cursor);
    }
  }

  lemma TailDropsTheHead(a: seq<Event>)
    requires StrictlySorted(a) && a != []
    ensures StrictlySorted(a[1..])
    ensures forall e :: e in a ==> a[0].sequence <= e.sequence
    ensures forall e :: e in a[1..] <==> e in a && e != a[0]
  {
    assert a == [a[0]] + a[1..];
    forall e | e in a[1..] ensures e != a[0] {
      var i :| 1 <= i < |a| && a[i] == e;
    }
  }

  lemma {:induction false} SortedLogsAreUnique(a: seq<Event>, b: seq<Event>)
    requires StrictlySorted(a) && StrictlySorted(b)
    requires forall e :: e in a <==> e in b
    ensures a == b
  {
    if a == [] {
      HeadIsMember(b);
    } else {
      assert a[0] in b;
      TailDropsTheHead(a);
      TailDropsTheHead(b);
      assert b[0] in a;
      HeadsAgree(a, b);
      SortedLogsAreUnique(a[1..], b[1..]);
      assert a == [a[0]] + a[1..] && b == [b[0]] + b[1..];
    }
  }

  lemma HeadIsMember(s: seq<Event>)
    ensures s != [] ==> s[0] in s
  {
  }

  lemma HeadsAgree(a: seq<Event>, b: seq<Event>)
    requires StrictlySorted(b) && a != [] && b != []
    requires a[0] in b && a[0].sequence <= b[0].sequence
    ensures a[0] == b[0]
  {
    var i :| 0 <= i < |b| && b[i] == a[0];
  }

  // ---- The server log and the batches cut from it --------------------------------

  /** A server log: strictly increasing, positive, exactly representable sequence numbers. */
  ghost predicate IsServerLog(server: seq<Event>) {
    StrictlySorted(server) && forall e :: e in server ==> 0 < e.sequence && IsSafeInteger(e.sequence)
  }

  /** The server log restricted to sequences up to a cursor. */
  function UpTo(server: seq<Event>, cursor: int): seq<Event> {
    if server == [] then []
    else if server[0].sequence <= cursor then [server[0]] + UpTo(server[1..], cursor)
    else UpTo(server[1..], cursor)
  }

  lemma {:induction false} UpToRestricts(server: seq<Event>, cursor: int)
    requires StrictlySorted(server)
    ensures StrictlySorted(UpTo(server, cursor))
    ensures forall e :: e in UpTo(server, cursor) <==> e in server && e.sequence <= cursor
  {
    if server != [] {
      UpToRestricts(server[1..], cursor);
      var tail := UpTo(server[1..], cursor);
      assert server == [server[0]] + server[1..];
      assert forall e :: e in tail ==> e in server[1..] && server[0].sequence < e.sequence;
    }
  }

  /**
   A batch requested after cursor `after` while the server had written its
   first `written` events: exactly the events then present beyond `after`, in
   any order and with any repetition.
   */
  ghost predicate IsBatch(batch: seq<Event>, server: seq<Event>, after: int, written: nat)
    requires written <= |server|
  {
    forall e :: e in batch <==> e in server[..written] && e.sequence > after
  }

  /**
   Merging keeps the log equal to the server log up to the new cursor: sorted,
   without a gap and without a duplicate, whichever batch arrives, as long as
   it was requested after a cursor the client had already reached.
   */
  lemma MergeExtendsTheRestriction(server: seq<Event>, cursor: int, batch: seq<Event>, after: int, written: nat)
    requires IsServerLog(server) && written <= |server|
    requires IsBatch(batch, server, after, written) && after <= cursor
    ensures var merged := Merge(UpTo(server, cursor), batch, cursor);
            && merged.events == UpTo(server, merged.cursor)
            && merged.cursor >= cursor
            && forall e :: e in server[..written] ==> e.sequence <= merged.cursor || e.sequence <= after
  {
    var current := UpTo(server, cursor);
    var merged := Merge(current, batch, cursor);
    UpToRestricts(server, cursor);
    UpToRestricts(server, merged.cursor);
    IndexedFiles(current);
    CursorIsGreatest(batch, cursor);
    var index := Indexed(current);
    forall e | e in batch ensures e in server && Accepts(e, after) {
      assert e in server[..written];
    }
    WithIncomingAddsAccepted(index, batch, cursor);
    SortedHoldsExactly(WithIncoming(index, batch, cursor));
    forall e ensures e in merged.events <==> e in UpTo(server, merged.cursor) {
      if e in server && cursor < e.sequence <= merged.cursor {
        var top :| top in batch && Accepts(top, cursor) && top.sequence == merged.cursor;
        PrefixHoldsSmaller(server, written, top, e);
      }
    }
    SortedLogsAreUnique(merged.events, UpTo(server, merged.cursor));
  }

  /** A prefix of a sorted log that holds an event holds every smaller one. */
  lemma PrefixHoldsSmaller(server: seq<Event>, written: nat, top: Event, e: Event)
    requires StrictlySorted(server) && written <= |server|
    requires top in server[..written] && e in server && e.sequence <= top.sequence
    ensures e in server[..written]
  {
    var i :| 0 <= i < written && server[i] == top;
    var j :| 0 <= j < |server| && server[j] == e;
    assert j <= i;
    assert server[..written][j] == e;
  }

  datatype Delivery = Delivery(batch: seq<Event>, ghost after: int, ghost written: nat)

  function Deliver(deliveries: seq<Delivery>): Merged {
    if deliveries == [] then Merged([], 0)
    else
      var before := Deliver(deliveries[..|deliveries| - 1]);
      Merge(before.events, deliveries[|deliveries| - 1].batch, before.cursor)
  }

  /** Each batch was requested after a cursor the client had reached before it arrived. */
  ghost predicate Requested(deliveries: seq<Delivery>, server: seq<Event>) {
    forall i :: 0 <= i < |deliveries| ==>
      && deliveries[i].written <= |server|
      && IsBatch(deliveries[i].batch, server, deliveries[i].after, deliveries[i].written)
      && deliveries[i].after <= Deliver(deliveries[..i]).cursor
  }

  /** Over any such sequence of deliveries, overlapping, repeated or late, the log is the restricted server log. */
  lemma {:induction false} LogIsAlwaysTheRestriction(deliveries: seq<Delivery>, server: seq<Event>)
    requires IsServerLog(server) && Requested(deliveries, server)
    ensures var client := Deliver(deliveries);
            client.events == UpTo(server, client.cursor) && client.cursor >= 0
  {
    if deliveries == [] {
      UpToRestricts(server, 0);
      SortedLogsAreUnique([], UpTo(server, 0));
    } else {
      var before, last := deliveries[..|deliveries| - 1], deliveries[|deliveries| - 1];
      assert forall i :: 0 <= i < |before| ==> before[i] == deliveries[i] && before[..i] == deliveries[..i];
      LogIsAlwaysTheRestriction(before, server);
      MergeExtendsTheRestriction(server, Deliver(before).cursor, last.batch, last.after, last.written);
    }
  }

  /** Merging the same batch a second time changes nothing, whatever the batch holds. */
  lemma MergeIsIdempotent(current: seq<Event>, incoming: seq<Event>, cursor: int)
    requires StrictlySorted(current)
    ensures var once := Merge(current, incoming, cursor);
            Merge(once.events, incoming, once.cursor) == once
  {
    var once := Merge(current, incoming, cursor);
    IndexedFiles(current);
    CursorIsGreatest(incoming, cursor);
    var index := WithIncoming(Indexed(current), incoming, cursor);
    SortedHoldsExactly(index);
    IndexedFiles(once.events);
    NothingBeyond(Indexed(once.events), incoming, once.cursor);
    SortedHoldsExactly(Indexed(once.events));
    SortedLogsAreUnique(Sorted(Indexed(once.events)), once.events);
  }

  lemma {:induction false} NothingBeyond(index: set<Event>, incoming: seq<Event>, cursor: int)
    requires DistinctSequences(index) && forall e :: e in incoming ==> !Accepts(e, cursor)
    ensures WithIncoming(index, incoming, cursor) == index && CursorAfter(incoming, cursor) == cursor
  {
    if incoming != [] {
      var init, last := incoming[..|incoming| - 1], incoming[|incoming| - 1];
      assert incoming == init + [last];
      assert last in incoming;
      NothingBeyond(index, init, cursor);
    }
  }

  // ---- The polling loop's own cursor ----------------------------------------------

  /** `eventCursor` after one poll: it takes the maximum over every event, safe or not. */
  function PollCursorAfter(batch: seq<Event>, eventCursor: int): int {
    if batch == [] then eventCursor
    else Max(PollCursorAfter(batch[..|batch| - 1], eventCursor), batch[|batch| - 1].sequence)
  }

  class ExecutionPoller {
    var eventCursor: int
    var events: seq<Event>
    var cursor: int

    /** One poll whose response still belongs to the execution: dispatch, then advance. */
    method HandleBatch(batch: seq<Event>)
      modifies this
      ensures Merged(events, cursor) == Merge(old(events), batch, old(cursor))
      ensures eventCursor == PollCursorAfter(batch, old(eventCursor))
    {
      var merged := MergeExecutionEvents(events, batch, cursor);
      events, cursor := merged.events, merged.cursor;
      ghost var start := eventCursor;
      for i := 0 to |batch|
        invariant eventCursor == PollCursorAfter(batch[..i], start)
        invariant events == merged.events && cursor == merged.cursor
      {
        assert batch[..i + 1][..i] == batch[..i];
        eventCursor := Max(eventCursor, batch[i].sequence);
      }
      assert batch[..|batch|] == batch;
    }
  }

  lemma {:induction false} PollCursorIsGreatest(batch: seq<Event>, eventCursor: int)
    ensures eventCursor <= PollCursorAfter(batch, eventCursor)
    ensures forall e :: e in batch ==> e.sequence <= PollCursorAfter(batch, eventCursor)
    ensures PollCursorAfter(batch, eventCursor) == eventCursor
            || exists e :: e in batch && e.sequence == PollCursorAfter(batch, eventCursor)
  {
    if batch != [] {
      var init, last := batch[..|batch| - 1], batch[|batch| - 1];
      PollCursorIsGreatest(init, eventCursor);
      assert batch == init + [last];
      assert last in batch;
    }
  }

  /**
   The poller asks next after exactly the cursor the reducer holds if and only
   if no event it was sent carries an unrepresentable sequence number beyond
   that cursor; only then can it never skip an event the reducer refused.
   */
  lemma PollCursorAgreesIff(batch: seq<Event>, cursor: int)
    ensures PollCursorAfter(batch, cursor) == CursorAfter(batch, cursor)
            <==> forall e :: e in batch && !IsSafeInteger(e.sequence) ==> e.sequence <= CursorAfter(batch, cursor)
  {
    PollCursorIsGreatest(batch, cursor);
    CursorIsGreatest(batch, cursor);
  }

  // ---- The poller and the log together ------------------------------------------------

  datatype Poll = Poll(batch: seq<Event>, ghost written: nat)

  datatype Polled = Polled(log: Merged, eventCursor: int)

  /** The log and the poller's own cursor after these responses, one after another. */
  function AfterPolls(polls: seq<Poll>): Polled {
    if polls == [] then Polled(Merged([], 0), 0)
    else
      var before, batch := AfterPolls(polls[..|polls| - 1]), polls[|polls| - 1].batch;
      Polled(Merge(before.log.events, batch, before.log.cursor), PollCursorAfter(batch, before.eventCursor))
  }

  /** The server answered each poll from the cursor the poller then held. */
  ghost predicate Answered(polls: seq<Poll>, server: seq<Event>) {
    forall i :: 0 <= i < |polls| ==>
      && polls[i].written <= |server|
      && IsBatch(polls[i].batch, server, AfterPolls(polls[..i]).eventCursor, polls[i].written)
  }

  /**
   The loop's own requests are what the log needs: over any polls the two
   cursors are one, the log is the server log up to it, and nothing the server
   had written at the last poll is missing.
   */
  lemma {:induction false} PollingFollowsTheServer(polls: seq<Poll>, server: seq<Event>)
    requires IsServerLog(server) && Answered(polls, server)
    ensures var s := AfterPolls(polls);
            && s.eventCursor == s.log.cursor && s.log.events == UpTo(server, s.log.cursor)
            && (polls != [] ==> forall e :: e in server[..polls[|polls| - 1].written] ==> e in s.log.events)
  {
    if polls == [] {
      UpToRestricts(server, 0);
      SortedLogsAreUnique([], UpTo(server, 0));
    } else {
      var init, last := polls[..|polls| - 1], polls[|polls| - 1];
      assert forall i :: 0 <= i < |init| ==> init[i] == polls[i] && init[..i] == polls[..i];
      PollingFollowsTheServer(init, server);
      var before := AfterPolls(init);
      OnePollFollows(server, before.log.cursor, last);
    }
  }

  lemma OnePollFollows(server: seq<Event>, cursor: int, poll: Poll)
    requires IsServerLog(server) && poll.written <= |server| && IsBatch(poll.batch, server, cursor, poll.written)
    ensures var merged := Merge(UpTo(server, cursor), poll.batch, cursor);
            && PollCursorAfter(poll.batch, cursor) == merged.cursor
            && merged.events == UpTo(server, merged.cursor)
            && forall e :: e in server[..poll.written] ==> e in merged.events
  {
    var merged := Merge(UpTo(server, cursor), poll.batch, cursor);
    MergeExtendsTheRestriction(server, cursor, poll.batch, cursor, poll.written);
    assert forall e :: e in poll.batch ==> e in server[..poll.written] && e in server && IsSafeInteger(e.sequence);
    PollCursorAgreesIff(poll.batch, cursor);
    UpToRestricts(server, merged.cursor);
  }

  // ---- The merge on any inputs ----------------------------------------------------------

  /** Beyond the cursor and exactly representable as a JavaScript number. */
  ghost predicate IsNews(e: Event, cursor: int) {
    cursor < e.sequence && -9007199254740991 <= e.sequence <= 9007199254740991
  }

  /** No later event of the list has its number. */
  ghost predicate IsLastOfItsNumber(events: seq<Event>, e: Event) {
    exists i :: 0 <= i < |events| && events[i] == e && forall j :: i < j < |events| ==> events[j].sequence != e.sequence
  }

  lemma {:induction false} LastOfItsNumberGrows(events: seq<Event>, last: Event, e: Event)
    ensures IsLastOfItsNumber(events + [last], e) <==>
            e == last || (IsLastOfItsNumber(events, e) && e.sequence != last.sequence)
  {
    var all := events + [last];
    assert all[|events|] == last && forall i :: 0 <= i < |events| ==> all[i] == events[i];
    if IsLastOfItsNumber(events, e) && e.sequence != last.sequence {
      var i :| 0 <= i < |events| && events[i] == e
               && forall j :: i < j < |events| ==> events[j].sequence != e.sequence;
      assert all[i] == e;
    }
  }

  lemma {:induction false} IndexedMeans(events: seq<Event>, e: Event)
    ensures e in Indexed(events) <==> IsLastOfItsNumber(events, e)
  {
    if events != [] {
      var init, last := events[..|events| - 1], events[|events| - 1];
      assert events == init + [last];
      IndexedMeans(init, e);
      LastOfItsNumberGrows(init, last, e);
    }
  }

  lemma {:induction false} WithIncomingMeans(index: set<Event>, incoming: seq<Event>, cursor: int, e: Event)
    requires DistinctSequences(index)
    ensures e in WithIncoming(index, incoming, cursor) <==>
            || (IsNews(e, cursor) && IsLastOfItsNumber(incoming, e))
            || (e in index && forall d :: d in incoming && IsNews(d, cursor) ==> d.sequence != e.sequence)
  {
    if incoming != [] {
      var init, last := incoming[..|incoming| - 1], incoming[|incoming| - 1];
      assert incoming == init + [last];
      WithIncomingMeans(index, init, cursor, e);
      LastOfItsNumberGrows(init, last, e);
      assert forall d :: d in incoming <==> d in init || d == last;
    }
  }

  /**
   Merging any batch into any log: sorted, one event for each number, the last
   new one of the batch if there is one and else the last one of the log; and
   the cursor is the greatest new number, or unchanged without one.
   */
  lemma MergeMeans(current: seq<Event>, incoming: seq<Event>, cursor: int)
    ensures var merged := Merge(current, incoming, cursor);
            && StrictlySorted(merged.events)
            && (forall e :: e in merged.events <==>
                  || (IsNews(e, cursor) && IsLastOfItsNumber(incoming, e))
                  || (IsLastOfItsNumber(current, e)
                      && forall d :: d in incoming && IsNews(d, cursor) ==> d.sequence != e.sequence))
            && (forall e :: e in incoming && IsNews(e, cursor) ==> e.sequence <= merged.cursor)
            && (merged.cursor == cursor
                || exists e :: e in incoming && IsNews(e, cursor) && e.sequence == merged.cursor)
  {
    var index := Indexed(current);
    SortedHoldsExactly(WithIncoming(index, incoming, cursor));
    CursorIsGreatest(incoming, cursor);
    forall e: Event
      ensures e in index <==> IsLastOfItsNumber(current, e)
      ensures e in WithIncoming(index, incoming, cursor) <==>
              || (IsNews(e, cursor) && IsLastOfItsNumber(incoming, e))
              || (e in index && forall d :: d in incoming && IsNews(d, cursor) ==> d.sequence != e.sequence)
    {
      IndexedMeans(current, e);
      WithIncomingMeans(index, incoming, cursor, e);
    }
    assert forall e: Event :: Accepts(e, cursor) <==> IsNews(e, cursor);
  }
}
