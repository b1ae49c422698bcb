/** Which turn may be steered, read from a thread's bounded ring. */
module JournalSteer {
  import opened Sequences
  import opened EventRing
  import opened GatewayEvents
  import opened JournalModel
  import opened JournalRings

  /** The last turn lifecycle event: `[...items].reverse().find(...)`. */
  function LastTurnItem(items: seq<Item>): (r: Option<Item>)
    ensures r.Some? ==> r.value in items && IsTurnLifecycle(r.value.payload)
    ensures r.None? ==> forall i :: 0 <= i < |items| ==> !IsTurnLifecycle(items[i].payload)
  {
    if items == [] then None
    else if IsTurnLifecycle(items[|items| - 1].payload) then Some(items[|items| - 1])
    else LastTurnItem(items[..|items| - 1])
  }

  /** The turn to steer given a thread's events, or the snapshot's turn when they say nothing. */
  function SteerTurn(items: seq<Item>, snapshotTurn: Option<string>): Option<string> {
    var last := LastTurnItem(items);
    if last.None? then snapshotTurn
    else if last.value.payload.TurnStarted? then Some(last.value.payload.turnId)
    else None
  }

  function ConfirmedSteerTurnId(s: State, latestSeq: nat, threadId: Option<string>, snapshotTurn: Option<string>): Option<string> {
    if Truthy(threadId).None? then None
    else SteerTurn(EventsForThread(s, threadId.value, latestSeq), snapshotTurn)
  }

  /** The same thread events without any ring bound. */
  function FullThreadView(lim: Bounds, events: seq<Event>, t: string, view: nat): seq<Item> {
    Through(OfThread(Log(lim, events), t), view)
  }

  lemma {:induction false} LastTurnOfConcat(a: seq<Item>, b: seq<Item>)
    ensures LastTurnItem(a + b) == if LastTurnItem(b).Some? then LastTurnItem(b) else LastTurnItem(a)
  {
    if b == [] {
      assert a + b == a;
    } else {
      assert (a + b)[..|a + b| - 1] == a + b[..|b| - 1];
      LastTurnOfConcat(a, b[..|b| - 1]);
    }
  }

  lemma ShareIsSuffix(log: seq<Record>, n: nat, t: string)
    ensures IsSuffix(OfThread(LastN(log, n), t), OfThread(log, t))
  {
    var kept := LastN(log, n);
    var gone := log[..|log| - |kept|];
    assert log == gone + kept;
    OfThreadConcat(gone, kept, t);
    SuffixOfConcat(OfThread(gone, t), OfThread(kept, t));
  }

  /** A thread's retained view is the end of its full view. */
  lemma RetainedViewIsSuffix(lim: Bounds, events: seq<Event>, t: string, view: nat)
    ensures IsSuffix(EventsForThread(Run(lim, events), t, view), FullThreadView(lim, events, t, view))
  {
    var s, log := Run(lim, events), Log(lim, events);
    RingsAreWindows(lim, events);
    assert RingMatches(lim, s.global, s.perThread, t);
    ShareIsSuffix(log, lim.total, t);
    LastNIsSuffix(OfThread(s.global, t), lim.perThread);
    SuffixTransitive(Items(s.perThread, t), OfThread(s.global, t), OfThread(log, t));
    ThroughSuffix(Items(s.perThread, t), OfThread(log, t), view);
  }

  lemma SteerOfSuffix(kept: seq<Item>, full: seq<Item>, snapshotTurn: Option<string>)
    requires IsSuffix(kept, full)
    ensures var last := LastTurnItem(full);
            SteerTurn(kept, snapshotTurn) ==
            if last.Some? && last.value in kept then SteerTurn(full, snapshotTurn) else snapshotTurn
  {
    var gone := full[..|full| - |kept|];
    assert full == gone + kept;
    LastTurnOfConcat(gone, kept);
  }

  /**
   Read through any snapshot, the bounded answer is the answer over the
   thread's whole history when that history's last turn event is still
   retained, and the snapshot's own turn otherwise.
   */
  lemma SteerAgreesWithHistory(lim: Bounds, events: seq<Event>, t: string, view: nat, snapshotTurn: Option<string>)
    requires t != ""
    ensures var s, full := Run(lim, events), FullThreadView(lim, events, t, view);
            var last := LastTurnItem(full);
            ConfirmedSteerTurnId(s, view, Some(t), snapshotTurn) ==
            if last.Some? && last.value in EventsForThread(s, t, view) then SteerTurn(full, snapshotTurn)
            else snapshotTurn
  {
    RetainedViewIsSuffix(lim, events, t, view);
    SteerOfSuffix(EventsForThread(Run(lim, events), t, view), FullThreadView(lim, events, t, view), snapshotTurn);
  }

  // ----- never a turn from before a retained queue or completion -----

  ghost predicate ItemsAscend(items: seq<Item>) {
    forall i, j :: 0 <= i < j < |items| ==> items[i].stamp < items[j].stamp
  }

  lemma {:induction false} OfThreadAscends(records: seq<Record>, t: string)
    requires Ascending(records)
    ensures ItemsAscend(OfThread(records, t))
  {
    if records != [] {
      var rest := records[1..];
      OfThreadAscends(rest, t);
      var items := OfThread(rest, t);
      forall j | 0 <= j < |items| ensures records[0].stamp < items[j].stamp {
        var k :| 0 <= k < |rest| && rest[k] == Stamped(items[j].stamp, Routed(items[j].payload, Some(t)));
        assert rest[k] == records[k + 1];
      }
    }
  }

  lemma {:induction false} ThroughAscends(items: seq<Item>, view: nat)
    requires ItemsAscend(items)
    ensures ItemsAscend(Through(items, view))
    ensures forall x :: x in Through(items, view) ==> x in items
  {
    if items != [] {
      ThroughAscends(items[1..], view);
      assert items == [items[0]] + items[1..];
      forall x | x in Through(items[1..], view) ensures items[0].stamp < x.stamp {
        assert x in items[1..];
      }
    }
  }

  lemma RetainedAscends(lim: Bounds, events: seq<Event>, t: string, view: nat)
    ensures ItemsAscend(EventsForThread(Run(lim, events), t, view))
  {
    var s := Run(lim, events);
    RingIsWindow(lim, events, t);
    WindowAscends(lim, events);
    OfThreadAscends(s.global, t);
    ThroughAscends(Items(s.perThread, t), view);
  }

  lemma {:induction false} LastTurnIsLast(items: seq<Item>, i: nat)
    requires i < |items| && IsTurnLifecycle(items[i].payload)
    ensures LastTurnItem(items).Some?
    ensures exists j :: i <= j < |items| && items[j] == LastTurnItem(items).value
  {
    var n := |items| - 1;
    if !IsTurnLifecycle(items[n].payload) {
      LastTurnIsLast(items[..n], i);
      var j :| i <= j < n && items[..n][j] == LastTurnItem(items[..n]).value;
      assert items[j] == LastTurnItem(items).value;
    }
  }

  lemma SteerIsLater(items: seq<Item>, x: Item, snapshotTurn: Option<string>) returns (y: Item)
    requires ItemsAscend(items) && x in items && (x.payload.TurnQueued? || x.payload.TurnCompleted?)
    requires SteerTurn(items, snapshotTurn).Some?
    ensures y in items && x.stamp < y.stamp && y.payload.TurnStarted?
    ensures SteerTurn(items, snapshotTurn) == Some(y.payload.turnId)
  {
    var i :| 0 <= i < |items| && items[i] == x;
    LastTurnIsLast(items, i);
    y := LastTurnItem(items).value;
    var j :| i <= j < |items| && items[j] == y;
  }

  /**
   Where a thread's retained view has a queue or completion event, a turn is
   offered for steering only if a start event numbered after it names it.
   */
  lemma NeverRevivesOldTurn(lim: Bounds, events: seq<Event>, t: string, view: nat, snapshotTurn: Option<string>, x: Item)
    returns (y: Item)
    requires t != "" && x in EventsForThread(Run(lim, events), t, view)
    requires x.payload.TurnQueued? || x.payload.TurnCompleted?
    requires ConfirmedSteerTurnId(Run(lim, events), view, Some(t), snapshotTurn).Some?
    ensures y in EventsForThread(Run(lim, events), t, view) && x.stamp < y.stamp && y.payload.TurnStarted?
    ensures ConfirmedSteerTurnId(Run(lim, events), view, Some(t), snapshotTurn) == Some(y.payload.turnId)
  {
    RetainedAscends(lim, events, t, view);
    y := SteerIsLater(EventsForThread(Run(lim, events), t, view), x, snapshotTurn);
  }
}
