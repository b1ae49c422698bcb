/** What the journal's readers are told, said of the events appended. */
module JournalReads {
  import opened Sequences
  import opened EventRing
  import opened GatewayEvents
  import opened JournalModel
  import opened JournalRings
  import opened JournalSteer
  import opened JournalRouting

  // ----- a thread's events -----

  lemma OfThreadOfLog(lim: Bounds, events: seq<Event>, t: string, x: Item)
    requires x in OfThread(Log(lim, events), t)
    ensures 1 <= x.stamp <= |events| && x.payload == events[x.stamp - 1] && ThreadAt(lim, events, x.stamp - 1) == Some(t)
  {
    var log := Log(lim, events);
    var i :| 0 <= i < |log| && log[i] == Stamped(x.stamp, Routed(x.payload, Some(t)));
    LogThreads(lim, events, i);
  }

  lemma {:induction false} LogInThread(records: seq<Record>, i: nat, t: string)
    requires i < |records| && records[i].payload.threadId == Some(t)
    ensures Stamped(records[i].stamp, records[i].payload.event) in OfThread(records, t)
  {
    if i > 0 { LogInThread(records[1..], i - 1, t); }
  }

  lemma {:induction false} ThroughIff<P>(s: seq<Stamped<P>>, view: nat, x: Stamped<P>)
    ensures x in Through(s, view) <==> x in s && x.stamp <= view
  {
    if s != [] {
      ThroughIff(s[1..], view, x);
      assert s == [s[0]] + s[1..];
    }
  }

  lemma ThreadViewItem(lim: Bounds, events: seq<Event>, t: string, view: nat, x: Item)
    requires x in FullThreadView(lim, events, t, view)
    ensures 1 <= x.stamp <= |events| && x.stamp <= view
    ensures x.payload == events[x.stamp - 1] && ThreadAt(lim, events, x.stamp - 1) == Some(t)
  {
    ThroughIff(OfThread(Log(lim, events), t), view, x);
    OfThreadOfLog(lim, events, t, x);
  }

  lemma InThreadView(lim: Bounds, events: seq<Event>, t: string, view: nat, i: nat)
    requires i < |events| && i < view && ThreadAt(lim, events, i) == Some(t)
    ensures Stamped(i + 1, events[i]) in FullThreadView(lim, events, t, view)
  {
    LogThreads(lim, events, i);
    LogInThread(Log(lim, events), i, t);
    ThroughIff(OfThread(Log(lim, events), t), view, Stamped(i + 1, events[i]));
  }

  /** The whole history of a thread through a snapshot: the events numbered in it that went there. */
  lemma ThreadViewIff(lim: Bounds, events: seq<Event>, t: string, view: nat, x: Item)
    ensures x in FullThreadView(lim, events, t, view) <==>
            1 <= x.stamp <= |events| && x.stamp <= view
            && x.payload == events[x.stamp - 1] && ThreadAt(lim, events, x.stamp - 1) == Some(t)
  {
    if x in FullThreadView(lim, events, t, view) {
      ThreadViewItem(lim, events, t, view, x);
    } else if 1 <= x.stamp <= |events| && x.stamp <= view && ThreadAt(lim, events, x.stamp - 1) == Some(t) {
      InThreadView(lim, events, t, view, x.stamp - 1);
    }
  }

  lemma ThroughLast<P>(s: seq<Stamped<P>>, x: Stamped<P>, view: nat)
    requires x.stamp <= view
    ensures Through(s + [x], view) == Through(s, view) + [x]
  {
    ThroughConcat(s, [x], view);
    assert Through([x], view) == [x] + Through([x][1..], view);
  }

  lemma PushedIsRead(ring: seq<Item>, x: Item, capacity: nat, view: nat)
    requires capacity > 0 && x.stamp <= view
    ensures var items := Through(Pushed(ring, x, capacity), view); items != [] && items[|items| - 1] == x
  {
    var pushed := Pushed(ring, x, capacity);
    assert pushed == pushed[..|pushed| - 1] + [x];
    ThroughLast(pushed[..|pushed| - 1], x, view);
  }

  lemma RingPushed(lim: Bounds, s: State, e: Event, t: string)
    requires Resolve(s.actionThreads, e) == Some(t)
    ensures Items(NextPerThread(lim, s, e), t) ==
            Pushed(Items(ForgetItem(s.perThread, Evicted(lim, s.global)), t), Stamped(s.latestSeq + 1, e), lim.perThread)
  {
  }

  lemma AppendedIsRead(lim: Bounds, s: State, e: Event, t: string)
    requires Resolve(s.actionThreads, e) == Some(t)
    ensures var items := Through(Items(NextPerThread(lim, s, e), t), s.latestSeq + 1);
            items != [] && items[|items| - 1] == Stamped(s.latestSeq + 1, e)
  {
    RingPushed(lim, s, e, t);
    PushedIsRead(Items(ForgetItem(s.perThread, Evicted(lim, s.global)), t), Stamped(s.latestSeq + 1, e), lim.perThread,
                 s.latestSeq + 1);
  }

  /** A new event is the last one its thread reads. */
  lemma LastIsRead(lim: Bounds, events: seq<Event>, t: string)
    requires events != [] && ThreadAt(lim, events, |events| - 1) == Some(t)
    ensures var items := EventsForThread(Run(lim, events), t, |events|);
            items != [] && items[|items| - 1] == Stamped(|events|, events[|events| - 1])
  {
    var n := |events| - 1;
    LatestSeqCounts(lim, events[..n]);
    LogThreads(lim, events, n);
    AppendedIsRead(lim, Run(lim, events[..n]), events[n], t);
  }

  lemma NamedIsRead(lim: Bounds, events: seq<Event>, t: string)
    requires events != [] && Names(events[|events| - 1], t)
    ensures var items := EventsForThread(Run(lim, events), t, |events|);
            items != [] && items[|items| - 1] == Stamped(|events|, events[|events| - 1])
  {
    RouteMeans(lim, events, |events| - 1, t);
    LastIsRead(lim, events, t);
  }

  // ----- steering -----

  predicate TurnEvent(e: Event) {
    e.TurnStarted? || e.TurnQueued? || e.TurnCompleted?
  }

  /** Turn events are about no action, so they go where they say. */
  lemma TurnRoute(lim: Bounds, events: seq<Event>, n: nat, t: string)
    requires n < |events| && TurnEvent(events[n])
    ensures ThreadAt(lim, events, n) == Some(t) <==> Names(events[n], t)
  {
    RouteMeans(lim, events, n, t);
  }

  /** Event `j` is a turn event of thread `t`. */
  ghost predicate TurnOf(events: seq<Event>, t: string, j: nat) {
    j < |events| && TurnEvent(events[j]) && Names(events[j], t)
  }

  /** Event `i` is the last turn event of thread `t` numbered in the view. */
  ghost predicate LastTurn(events: seq<Event>, t: string, view: nat, i: nat) {
    i < view && TurnOf(events, t, i) && forall j: nat :: i < j < view ==> !TurnOf(events, t, j)
  }

  lemma RoutedTurn(lim: Bounds, events: seq<Event>, t: string, n: nat)
    requires n < |events| && IsTurnLifecycle(events[n]) && ThreadAt(lim, events, n) == Some(t)
    ensures TurnOf(events, t, n)
  {
    TurnRoute(lim, events, n, t);
  }

  lemma TurnItemIsTurn(lim: Bounds, events: seq<Event>, t: string, view: nat, x: Item)
    requires x in FullThreadView(lim, events, t, view) && IsTurnLifecycle(x.payload)
    ensures 1 <= x.stamp <= view && TurnOf(events, t, x.stamp - 1) && x.payload == events[x.stamp - 1]
  {
    ThreadViewItem(lim, events, t, view, x);
    RoutedTurn(lim, events, t, x.stamp - 1);
  }

  lemma FullViewAscends(lim: Bounds, events: seq<Event>, t: string, view: nat)
    ensures ItemsAscend(FullThreadView(lim, events, t, view))
  {
    var log := Log(lim, events);
    forall i | 0 <= i < |log| ensures log[i].stamp == i + 1 { LogNumbered(lim, events, i); }
    OfThreadAscends(log, t);
    ThroughAscends(OfThread(log, t), view);
  }

  lemma LatestTurnIs(items: seq<Item>, x: Item)
    requires ItemsAscend(items) && x in items && IsTurnLifecycle(x.payload)
    requires forall y :: y in items && IsTurnLifecycle(y.payload) ==> y.stamp <= x.stamp
    ensures LastTurnItem(items) == Some(x)
  {
    var k :| 0 <= k < |items| && items[k] == x;
    LastTurnIsLast(items, k);
  }

  lemma TurnInView(lim: Bounds, events: seq<Event>, t: string, view: nat, i: nat)
    requires i < view && TurnOf(events, t, i)
    ensures Stamped(i + 1, events[i]) in FullThreadView(lim, events, t, view)
  {
    TurnRoute(lim, events, i, t);
    InThreadView(lim, events, t, view, i);
  }

  lemma NoLaterTurn(lim: Bounds, events: seq<Event>, t: string, view: nat, i: nat)
    requires LastTurn(events, t, view, i)
    ensures forall y :: y in FullThreadView(lim, events, t, view) && IsTurnLifecycle(y.payload) ==> y.stamp <= i + 1
  {
    forall y | y in FullThreadView(lim, events, t, view) && IsTurnLifecycle(y.payload) ensures y.stamp <= i + 1 {
      TurnItemIsTurn(lim, events, t, view, y);
    }
  }

  lemma LastTurnFound(lim: Bounds, events: seq<Event>, t: string, view: nat, i: nat)
    requires LastTurn(events, t, view, i)
    ensures LastTurnItem(FullThreadView(lim, events, t, view)) == Some(Stamped(i + 1, events[i]))
  {
    TurnInView(lim, events, t, view, i);
    NoLaterTurn(lim, events, t, view, i);
    FullViewAscends(lim, events, t, view);
    LatestTurnIs(FullThreadView(lim, events, t, view), Stamped(i + 1, events[i]));
  }

  /**
   The turn offered for steering is decided by the thread's last turn event in the view:
   that turn if the event starts it, none if it queues or completes one. Once that event
   has left the ring, the snapshot's own turn stands.
   */
  lemma SteerMeans(lim: Bounds, events: seq<Event>, t: string, view: nat, snapshotTurn: Option<string>, i: nat)
    requires t != "" && LastTurn(events, t, view, i)
    ensures ConfirmedSteerTurnId(Run(lim, events), view, Some(t), snapshotTurn) ==
            if Stamped(i + 1, events[i]) !in EventsForThread(Run(lim, events), t, view) then snapshotTurn
            else if events[i].TurnStarted? then Some(events[i].turnId) else None
  {
    SteerAgreesWithHistory(lim, events, t, view, snapshotTurn);
    LastTurnFound(lim, events, t, view, i);
  }

  lemma NoTurnToSteer(lim: Bounds, events: seq<Event>, t: string, view: nat, snapshotTurn: Option<string>)
    requires t != "" && forall j: nat :: j < view ==> !TurnOf(events, t, j)
    ensures ConfirmedSteerTurnId(Run(lim, events), view, Some(t), snapshotTurn) == snapshotTurn
  {
    SteerAgreesWithHistory(lim, events, t, view, snapshotTurn);
    var last := LastTurnItem(FullThreadView(lim, events, t, view));
    if last.Some? {
      TurnItemIsTurn(lim, events, t, view, last.value);
    }
  }

  /** A turn just started may be steered; after a queued or completed one, none may. */
  lemma SteerAfterTurn(lim: Bounds, events: seq<Event>, t: string, snapshotTurn: Option<string>)
    requires t != "" && events != [] && TurnEvent(events[|events| - 1]) && Names(events[|events| - 1], t)
    ensures var e := events[|events| - 1];
            ConfirmedSteerTurnId(Run(lim, events), |events|, Some(t), snapshotTurn) ==
            if e.TurnStarted? then Some(e.turnId) else None
  {
    NamedIsRead(lim, events, t);
    SteerMeans(lim, events, t, |events|, snapshotTurn, |events| - 1);
  }

  // ----- team revisions -----

  predicate TeamEvent(e: Event) {
    e.TurnStarted? || e.TurnCompleted? || e.ActivityChanged? || (e.EntryChanged? && e.hasAgentBlock)
  }

  ghost predicate TeamEventOf(lim: Bounds, events: seq<Event>, t: string, j: nat) {
    j < |events| && TeamEvent(events[j]) && ThreadAt(lim, events, j) == Some(t)
  }

  lemma {:induction false} LastTeamIs(items: seq<Item>, x: Item)
    requires ItemsAscend(items) && x in items && IsTeamLifecycle(x.payload)
    requires forall y :: y in items && IsTeamLifecycle(y.payload) ==> y.stamp <= x.stamp
    ensures LastTeamStamp(items) == x.stamp
  {
    var n := |items| - 1;
    var k :| 0 <= k < |items| && items[k] == x;
    if IsTeamLifecycle(items[n].payload) {
      assert items[n] in items;
    } else {
      assert items[..n][k] == x;
      LastTeamIs(items[..n], x);
    }
  }

  lemma {:induction false} NoTeamStamp(items: seq<Item>)
    requires forall y :: y in items ==> !IsTeamLifecycle(y.payload)
    ensures LastTeamStamp(items) == 0
  {
    if items != [] {
      assert items[|items| - 1] in items;
      NoTeamStamp(items[..|items| - 1]);
    }
  }

  lemma TeamItem(lim: Bounds, events: seq<Event>, t: string, x: Item)
    requires x in OfThread(Log(lim, events), t) && IsTeamLifecycle(x.payload)
    ensures 1 <= x.stamp <= |events| && TeamEventOf(lim, events, t, x.stamp - 1)
  {
    OfThreadOfLog(lim, events, t, x);
  }

  lemma LastTeamFound(lim: Bounds, events: seq<Event>, t: string, i: nat)
    requires TeamEventOf(lim, events, t, i) && forall j: nat :: i < j ==> !TeamEventOf(lim, events, t, j)
    ensures LastTeamStamp(OfThread(Log(lim, events), t)) == i + 1
  {
    var items, x := OfThread(Log(lim, events), t), Stamped(i + 1, events[i]);
    LogThreads(lim, events, i);
    LogInThread(Log(lim, events), i, t);
    forall y | y in items && IsTeamLifecycle(y.payload) ensures y.stamp <= x.stamp {
      TeamItem(lim, events, t, y);
    }
    LogAscends(lim, events);
    OfThreadAscends(Log(lim, events), t);
    LastTeamIs(items, x);
  }

  lemma LogAscends(lim: Bounds, events: seq<Event>)
    ensures Ascending(Log(lim, events))
  {
    var log := Log(lim, events);
    forall i | 0 <= i < |log| ensures log[i].stamp == i + 1 { LogNumbered(lim, events, i); }
  }

  lemma WindowHas(log: seq<Record>, bound: nat, i: nat, t: string)
    requires i < |log| && |log| - i <= bound && log[i].payload.threadId == Some(t)
    ensures Stamped(log[i].stamp, log[i].payload.event) in OfThread(LastN(log, bound), t)
  {
    LastNAt(log, bound, i);
    LogInThread(LastN(log, bound), i - (|log| - |LastN(log, bound)|), t);
  }

  lemma InWindow(lim: Bounds, events: seq<Event>, t: string, i: nat)
    requires i < |events| && ThreadAt(lim, events, i) == Some(t) && |events| - i <= lim.total
    ensures Stamped(i + 1, events[i]) in OfThread(Run(lim, events).global, t)
  {
    LogThreads(lim, events, i);
    WindowHas(Log(lim, events), lim.total, i, t);
    GlobalIsWindow(lim, events);
  }

  lemma StillInWindow(lim: Bounds, events: seq<Event>, t: string, i: nat)
    requires TeamEventOf(lim, events, t, i) && |events| - i <= lim.total
    ensures LastTeamStamp(OfThread(Run(lim, events).global, t)) > 0
  {
    InWindow(lim, events, t, i);
    WindowAscends(lim, events);
    OfThreadAscends(Run(lim, events).global, t);
    SomeTeamStamp(OfThread(Run(lim, events).global, t), Stamped(i + 1, events[i]));
  }

  lemma {:induction false} SomeTeamStamp(items: seq<Item>, x: Item)
    requires ItemsAscend(items) && x in items && x.stamp > 0 && IsTeamLifecycle(x.payload)
    ensures LastTeamStamp(items) > 0
  {
    var n := |items| - 1;
    var k :| 0 <= k < |items| && items[k] == x;
    if IsTeamLifecycle(items[n].payload) {
      assert items[k].stamp <= items[n].stamp;
    } else {
      assert items[..n][k] == x;
      SomeTeamStamp(items[..n], x);
    }
  }

  /**
   A thread's revision is the number of its last team event: a turn started or completed,
   an activity change, or an agent's entry; an older snapshot reads its own number instead. It may read 0 only once that event has left
   the ring of all events.
   */
  lemma TeamRevisionMeans(lim: Bounds, events: seq<Event>, t: string, view: nat, i: nat)
    requires TeamEventOf(lim, events, t, i) && forall j: nat :: i < j ==> !TeamEventOf(lim, events, t, j)
    ensures var revision := TeamLifecycleRevision(Run(lim, events), t, view);
            || revision == (if i < view then i + 1 else view)
            || (revision == 0 && |events| - i > lim.total)
  {
    RevisionIsLastTeamEvent(lim, events, t);
    LastTeamFound(lim, events, t, i);
    if |events| - i <= lim.total { StillInWindow(lim, events, t, i); }
  }

  lemma NoTeamEventNoRevision(lim: Bounds, events: seq<Event>, t: string, view: nat)
    requires forall j: nat :: !TeamEventOf(lim, events, t, j)
    ensures TeamLifecycleRevision(Run(lim, events), t, view) == 0
  {
    RevisionIsLastTeamEvent(lim, events, t);
    forall y | y in OfThread(Log(lim, events), t) ensures !IsTeamLifecycle(y.payload) {
      if IsTeamLifecycle(y.payload) { TeamItem(lim, events, t, y); }
    }
    NoTeamStamp(OfThread(Log(lim, events), t));
  }
}
