/** The global ring, the per-thread rings and the revisions agree with the full event history. */
module JournalRings {
  import opened Sequences
  import opened EventRing
  import opened GatewayEvents
  import opened JournalModel

  /** The events among `records` routed to thread `t`, in order. */
  function OfThread(records: seq<Record>, t: string): (r: seq<Item>)
    ensures |r| <= |records|
    ensures forall i :: 0 <= i < |r| ==> Stamped(r[i].stamp, Routed(r[i].payload, Some(t))) in records
  {
    if records == [] then []
    else if records[0].payload.threadId == Some(t) then
      [Stamped(records[0].stamp, records[0].payload.event)] + OfThread(records[1..], t)
    else
      OfThread(records[1..], t)
  }

  ghost predicate Ascending(records: seq<Record>) {
    forall i, j :: 0 <= i < j < |records| ==> records[i].stamp < records[j].stamp
  }

  /** One thread's ring is the end of that thread's share of the global ring. */
  ghost predicate RingMatches(lim: Bounds, global: seq<Record>, perThread: map<string, seq<Item>>, t: string) {
    && Items(perThread, t) == LastN(OfThread(global, t), lim.perThread)
    && (t in perThread <==> OfThread(global, t) != [])
  }

  ghost predicate RingsMatch(lim: Bounds, global: seq<Record>, perThread: map<string, seq<Item>>) {
    forall t: string :: RingMatches(lim, global, perThread, t)
  }

  lemma {:induction false} OfThreadConcat(a: seq<Record>, b: seq<Record>, t: string)
    ensures OfThread(a + b, t) == OfThread(a, t) + OfThread(b, t)
  {
    if a == [] {
      assert a + b == b;
    } else {
      assert (a + b)[0] == a[0] && (a + b)[1..] == a[1..] + b;
      OfThreadConcat(a[1..], b, t);
    }
  }

  lemma OfThreadPush(global: seq<Record>, r: Record, t: string)
    ensures OfThread(global + [r], t) ==
            if r.payload.threadId == Some(t) then OfThread(global, t) + [Stamped(r.stamp, r.payload.event)]
            else OfThread(global, t)
  {
    OfThreadConcat(global, [r], t);
    assert [r][1..] == [];
  }

  /** A thread's ring loses its oldest item exactly when that was the evicted record. */
  lemma TrimmedRing(first: Item, kept: seq<Item>, n: nat)
    requires n > 0 && forall i :: 0 <= i < |kept| ==> kept[i].stamp != first.stamp
    ensures WithoutOldest(LastN([first] + kept, n), first.stamp) == LastN(kept, n)
  {
    var ring := LastN([first] + kept, n);
    if |kept| < n {
      assert ring == [first] + kept;
    } else {
      assert ring == LastN(kept, n);
      assert ring[0] in kept;
    }
  }

  lemma {:induction false} OfThreadStamps(records: seq<Record>, t: string, stamp: nat)
    requires forall i :: 0 <= i < |records| ==> records[i].stamp != stamp
    ensures forall i :: 0 <= i < |OfThread(records, t)| ==> OfThread(records, t)[i].stamp != stamp
  {
    if records != [] { OfThreadStamps(records[1..], t, stamp); }
  }

  /** Evicting the oldest global record leaves a thread's ring matching what is left. */
  lemma ForgetKeepsMatch(lim: Bounds, global: seq<Record>, perThread: map<string, seq<Item>>, t: string)
    requires global != [] && Ascending(global) && RingMatches(lim, global, perThread, t)
    ensures RingMatches(lim, global[1..], ForgetItem(perThread, Some(global[0])), t)
  {
    var oldest, rest := global[0], global[1..];
    if oldest.payload.threadId == Some(t) {
      OfThreadStamps(rest, t, oldest.stamp);
      TrimmedRing(Stamped(oldest.stamp, oldest.payload.event), OfThread(rest, t), lim.perThread);
    } else {
      assert OfThread(global, t) == OfThread(rest, t);
    }
  }

  /** The per-thread rings after a record is pushed. */
  function PushItem(lim: Bounds, perThread: map<string, seq<Item>>, r: Record): map<string, seq<Item>> {
    if r.payload.threadId.None? then perThread
    else
      var t := r.payload.threadId.value;
      perThread[t := Pushed(Items(perThread, t), Stamped(r.stamp, r.payload.event), lim.perThread)]
  }

  lemma PushKeepsMatch(lim: Bounds, global: seq<Record>, perThread: map<string, seq<Item>>, r: Record, t: string)
    requires RingMatches(lim, global, perThread, t)
    ensures RingMatches(lim, global + [r], PushItem(lim, perThread, r), t)
  {
    OfThreadPush(global, r, t);
    if r.payload.threadId == Some(t) {
      LastNPush(OfThread(global, t), Stamped(r.stamp, r.payload.event), lim.perThread);
    }
  }

  /** What the global ring holds once room is made for the next record. */
  function AfterEviction(lim: Bounds, global: seq<Record>): seq<Record> {
    if |global| < lim.total then global else global[1..]
  }

  /** The record an append makes of an event. */
  function NextRecord(s: State, e: Event): Record {
    Stamped(s.latestSeq + 1, Routed(e, Resolve(s.actionThreads, e)))
  }

  lemma NextGlobal(lim: Bounds, s: State, e: Event)
    requires |s.global| <= lim.total
    ensures Append(lim, s, e).global == AfterEviction(lim, s.global) + [NextRecord(s, e)]
  {
  }

  lemma AppendKeepsMatch(lim: Bounds, s: State, e: Event, t: string)
    requires Ascending(s.global) && |s.global| <= lim.total
    requires RingMatches(lim, s.global, s.perThread, t)
    ensures RingMatches(lim, AfterEviction(lim, s.global) + [NextRecord(s, e)], NextPerThread(lim, s, e), t)
  {
    if |s.global| >= lim.total {
      ForgetKeepsMatch(lim, s.global, s.perThread, t);
    }
    PushKeepsMatch(lim, AfterEviction(lim, s.global), ForgetItem(s.perThread, Evicted(lim, s.global)), NextRecord(s, e), t);
  }

  /** The history grows by one record, numbered and routed as the append does. */
  lemma LogPush(lim: Bounds, events: seq<Event>)
    requires events != []
    ensures var front, e := events[..|events| - 1], events[|events| - 1];
            Log(lim, events) == Log(lim, front) + [NextRecord(Run(lim, front), e)]
  {
    LatestSeqCounts(lim, events[..|events| - 1]);
  }

  lemma NumberedAscends(log: seq<Record>, n: nat)
    requires forall i :: 0 <= i < |log| ==> log[i].stamp == i + 1
    ensures Ascending(LastN(log, n)) && forall i :: 0 <= i < |LastN(log, n)| ==> LastN(log, n)[i].stamp > 0
  {
    var window := LastN(log, n);
    forall i | 0 <= i < |window| ensures window[i].stamp == |log| - |window| + i + 1 {
      assert window[i] == log[|log| - |window| + i];
    }
  }

  /** What a step may use of the rings before it. */
  ghost predicate Ready(lim: Bounds, global: seq<Record>, perThread: map<string, seq<Item>>, t: string) {
    && RingMatches(lim, global, perThread, t) && Ascending(global) && |global| <= lim.total
    && forall i :: 0 <= i < |global| ==> global[i].stamp > 0
  }

  lemma {:induction false} GlobalIsWindow(lim: Bounds, events: seq<Event>)
    ensures Run(lim, events).global == LastN(Log(lim, events), lim.total)
  {
    if events != [] {
      var front := events[..|events| - 1];
      GlobalIsWindow(lim, front);
      LogPush(lim, events);
      LastNPush(Log(lim, front), Log(lim, events)[|front|], lim.total);
    }
  }

  lemma WindowAscends(lim: Bounds, events: seq<Event>)
    ensures var global := Run(lim, events).global;
            Ascending(global) && |global| <= lim.total && forall i :: 0 <= i < |global| ==> global[i].stamp > 0
  {
    GlobalIsWindow(lim, events);
    forall i | 0 <= i < |events| ensures Log(lim, events)[i].stamp == i + 1 { LogNumbered(lim, events, i); }
    NumberedAscends(Log(lim, events), lim.total);
  }

  lemma {:induction false} RingIsWindow(lim: Bounds, events: seq<Event>, t: string)
    ensures RingMatches(lim, Run(lim, events).global, Run(lim, events).perThread, t)
  {
    if events != [] {
      var front := events[..|events| - 1];
      RingIsWindow(lim, front, t);
      WindowAscends(lim, front);
      AppendKeepsMatch(lim, Run(lim, front), events[|events| - 1], t);
      NextGlobal(lim, Run(lim, front), events[|events| - 1]);
    }
  }

  /**
   After any appends the global ring is the end of the history, and each
   thread's ring is exactly the last `perThread` records of that thread still
   in the global ring; a thread has a ring just when it has such a record.
   */
  lemma RingsAreWindows(lim: Bounds, events: seq<Event>)
    ensures Run(lim, events).global == LastN(Log(lim, events), lim.total)
    ensures RingsMatch(lim, Run(lim, events).global, Run(lim, events).perThread)
  {
    GlobalIsWindow(lim, events);
    forall t: string ensures RingMatches(lim, Run(lim, events).global, Run(lim, events).perThread, t) {
      RingIsWindow(lim, events, t);
    }
  }

  // ----- the per-thread rings together hold no more than the global ring -----

  ghost function Pick(threads: set<string>): string
    requires threads != {}
  {
    var t :| t in threads; t
  }

  ghost function TotalItems(perThread: map<string, seq<Item>>, threads: set<string>): nat
    decreases |threads|
  {
    if threads == {} then 0
    else
      var t := Pick(threads);
      |Items(perThread, t)| + TotalItems(perThread, threads - {t})
  }

  ghost function TotalShares(global: seq<Record>, threads: set<string>): nat
    decreases |threads|
  {
    if threads == {} then 0
    else
      var t := Pick(threads);
      |OfThread(global, t)| + TotalShares(global, threads - {t})
  }

  lemma {:induction false} ShareOfHead(global: seq<Record>, threads: set<string>)
    requires global != []
    ensures TotalShares(global, threads) == TotalShares(global[1..], threads)
      + if global[0].payload.threadId.Some? && global[0].payload.threadId.value in threads then 1 else 0
    decreases |threads|
  {
    if threads != {} {
      ShareOfHead(global, threads - {Pick(threads)});
    }
  }

  lemma {:induction false} SharesFit(global: seq<Record>, threads: set<string>)
    ensures TotalShares(global, threads) <= |global|
  {
    if global == [] {
      NoShares(threads);
    } else {
      ShareOfHead(global, threads);
      SharesFit(global[1..], threads);
    }
  }

  lemma {:induction false} NoShares(threads: set<string>)
    ensures TotalShares([], threads) == 0
    decreases |threads|
  {
    if threads != {} {
      NoShares(threads - {Pick(threads)});
    }
  }

  lemma {:induction false} ItemsWithinShares(lim: Bounds, global: seq<Record>, perThread: map<string, seq<Item>>, threads: set<string>)
    requires RingsMatch(lim, global, perThread)
    ensures TotalItems(perThread, threads) <= TotalShares(global, threads)
    decreases |threads|
  {
    if threads != {} {
      assert RingMatches(lim, global, perThread, Pick(threads));
      ItemsWithinShares(lim, global, perThread, threads - {Pick(threads)});
    }
  }

  /** Over all threads, the per-thread rings never hold more than the global ring does. */
  lemma RingsFitGlobal(lim: Bounds, events: seq<Event>)
    ensures var s := Run(lim, events);
            TotalItems(s.perThread, s.perThread.Keys) <= |s.global| <= lim.total
  {
    var s := Run(lim, events);
    RingsAreWindows(lim, events);
    ItemsWithinShares(lim, s.global, s.perThread, s.perThread.Keys);
    SharesFit(s.global, s.perThread.Keys);
  }

  // ----- team revisions -----

  /** The number of the last team lifecycle event routed to a thread, 0 if there is none. */
  function LastTeamStamp(items: seq<Item>): nat {
    if items == [] then 0
    else if IsTeamLifecycle(items[|items| - 1].payload) then items[|items| - 1].stamp
    else LastTeamStamp(items[..|items| - 1])
  }

  lemma LastTeamPush(items: seq<Item>, x: Item)
    ensures LastTeamStamp(items + [x]) == if IsTeamLifecycle(x.payload) then x.stamp else LastTeamStamp(items)
  {
    assert (items + [x])[..|items|] == items;
  }

  lemma {:induction false} LastTeamOfTail(items: seq<Item>)
    requires items != [] && LastTeamStamp(items) == 0 && forall i :: 0 <= i < |items| ==> items[i].stamp > 0
    ensures LastTeamStamp(items[1..]) == 0
  {
    if |items| > 1 {
      LastTeamOfTail(items[..|items| - 1]);
      assert items[1..][..|items| - 2] == items[..|items| - 1][1..];
    }
  }

  /** A thread's revision is its last team event in all of `log`; without one, none is left in the ring. */
  ghost predicate RevisionMatches(team: map<string, nat>, perThread: map<string, seq<Item>>, global: seq<Record>, log: seq<Record>, t: string) {
    if t in team then t in perThread && team[t] == LastTeamStamp(OfThread(log, t)) > 0
    else LastTeamStamp(OfThread(global, t)) == 0
  }

  lemma ForgetKeepsRevision(lim: Bounds, s: State, log: seq<Record>, t: string)
    requires RingMatches(lim, s.global, s.perThread, t)
    requires RevisionMatches(s.teamSequences, s.perThread, s.global, log, t)
    requires Ascending(s.global) && s.global != []
    requires forall i :: 0 <= i < |s.global| ==> s.global[i].stamp > 0
    ensures var evicted := Some(s.global[0]);
            RevisionMatches(ForgetRevision(s.teamSequences, s.perThread, evicted), ForgetItem(s.perThread, evicted),
                            s.global[1..], log, t)
  {
    ForgetKeepsMatch(lim, s.global, s.perThread, t);
    if s.global[0].payload.threadId == Some(t) && t !in s.teamSequences {
      assert OfThread(s.global, t)[1..] == OfThread(s.global[1..], t);
      LastTeamOfTail(OfThread(s.global, t));
    }
  }

  lemma LastTeamOfThreadPush(records: seq<Record>, r: Record, t: string)
    ensures LastTeamStamp(OfThread(records + [r], t)) ==
            if r.payload.threadId == Some(t) && IsTeamLifecycle(r.payload.event) then r.stamp
            else LastTeamStamp(OfThread(records, t))
  {
    OfThreadPush(records, r, t);
    if r.payload.threadId == Some(t) {
      LastTeamPush(OfThread(records, t), Stamped(r.stamp, r.payload.event));
    }
  }

  function PushRevision(team: map<string, nat>, r: Record): map<string, nat> {
    if r.payload.threadId.Some? && IsTeamLifecycle(r.payload.event) then team[r.payload.threadId.value := r.stamp] else team
  }

  lemma PushKeepsRevision(lim: Bounds, team: map<string, nat>, perThread: map<string, seq<Item>>, global: seq<Record>,
                          log: seq<Record>, r: Record, t: string)
    requires RevisionMatches(team, perThread, global, log, t) && r.stamp > 0
    ensures RevisionMatches(PushRevision(team, r), PushItem(lim, perThread, r), global + [r], log + [r], t)
  {
    LastTeamOfThreadPush(log, r, t);
    LastTeamOfThreadPush(global, r, t);
  }

  ghost predicate StateRevision(s: State, log: seq<Record>, t: string) {
    RevisionMatches(s.teamSequences, s.perThread, s.global, log, t)
  }

  lemma AppendKeepsRevision(lim: Bounds, s: State, log: seq<Record>, e: Event, t: string)
    requires Ready(lim, s.global, s.perThread, t) && StateRevision(s, log, t)
    ensures StateRevision(Append(lim, s, e), log + [NextRecord(s, e)], t)
  {
    if |s.global| >= lim.total {
      ForgetKeepsRevision(lim, s, log, t);
    }
    var evicted := Evicted(lim, s.global);
    PushKeepsRevision(lim, ForgetRevision(s.teamSequences, s.perThread, evicted), ForgetItem(s.perThread, evicted),
                      AfterEviction(lim, s.global), log, NextRecord(s, e), t);
    NextGlobal(lim, s, e);
  }

  lemma WindowReady(lim: Bounds, events: seq<Event>, t: string)
    ensures Ready(lim, Run(lim, events).global, Run(lim, events).perThread, t)
  {
    RingIsWindow(lim, events, t);
    WindowAscends(lim, events);
  }

  lemma {:induction false} RevisionIsLastTeamEvent(lim: Bounds, events: seq<Event>, t: string)
    ensures StateRevision(Run(lim, events), Log(lim, events), t)
  {
    if events != [] {
      var front, last := events[..|events| - 1], events[|events| - 1];
      RevisionIsLastTeamEvent(lim, front, t);
      WindowReady(lim, front, t);
      AppendKeepsRevision(lim, Run(lim, front), Log(lim, front), last, t);
      LogPush(lim, events);
    }
  }

  /**
   A recorded revision belongs to a thread that still has a ring, and is the
   number of that thread's last team event in the whole history. A thread
   without one has no team event left in the global ring.
   */
  lemma RevisionsAreLastTeamEvents(lim: Bounds, events: seq<Event>)
    ensures forall t: string :: StateRevision(Run(lim, events), Log(lim, events), t)
    ensures Run(lim, events).teamSequences.Keys <= Run(lim, events).perThread.Keys
  {
    var s := Run(lim, events);
    forall t: string ensures StateRevision(s, Log(lim, events), t) {
      RevisionIsLastTeamEvent(lim, events, t);
    }
    forall t | t in s.teamSequences ensures t in s.perThread {
      RevisionIsLastTeamEvent(lim, events, t);
    }
  }

  // ----- re-reading an old snapshot -----

  /** `next` drops `k` values from the front of `prior` and adds only values stamped after `latest`. */
  ghost predicate AdvancesBy<P>(prior: seq<Stamped<P>>, next: seq<Stamped<P>>, latest: nat, k: nat) {
    && k <= |prior| <= |next| + k
    && next[..|prior| - k] == prior[k..]
    && forall i :: |prior| - k <= i < |next| ==> next[i].stamp > latest
  }

  ghost predicate Advances<P>(prior: seq<Stamped<P>>, next: seq<Stamped<P>>, latest: nat) {
    exists k: nat :: AdvancesBy(prior, next, latest, k)
  }

  lemma AdvanceShrinksView<P>(prior: seq<Stamped<P>>, next: seq<Stamped<P>>, latest: nat, view: nat)
    requires Advances(prior, next, latest) && view <= latest
    ensures IsSuffix(Through(next, view), Through(prior, view))
  {
    var k: nat :| AdvancesBy(prior, next, latest, k);
    var kept, added := next[..|prior| - k], next[|prior| - k..];
    assert next == kept + added;
    assert Through(next, view) == Through(kept, view) by {
      ThroughConcat(kept, added, view);
      ThroughNone(added, view);
    }
    assert IsSuffix(kept, prior);
    ThroughSuffix(kept, prior, view);
  }

  lemma PushAdvances<P>(s: seq<Stamped<P>>, drop: nat, v: Stamped<P>, capacity: nat, next: seq<Stamped<P>>, latest: nat)
    requires drop <= |s| && v.stamp == latest + 1 && capacity > 0 && next == Pushed(s[drop..], v, capacity)
    ensures Advances(s, next, latest)
  {
    var k := |s| + 1 - |next|;
    assert AdvancesBy(s, next, latest, k);
  }

  /** Evicting a record drops at most the oldest item of a thread's ring. */
  lemma ForgetDrops(perThread: map<string, seq<Item>>, evicted: Option<Record>, t: string) returns (drop: nat)
    ensures drop <= |Items(perThread, t)|
    ensures Items(ForgetItem(perThread, evicted), t) == Items(perThread, t)[drop..]
  {
    var ring, left := Items(perThread, t), Items(ForgetItem(perThread, evicted), t);
    drop := if left == ring then 0 else 1;
    assert left == ring || (ring != [] && left == ring[1..]);
  }

  lemma DropAdvances<P>(s: seq<Stamped<P>>, drop: nat, latest: nat, next: seq<Stamped<P>>)
    requires drop <= |s| && next == s[drop..]
    ensures Advances(s, next, latest)
  {
    assert AdvancesBy(s, next, latest, drop);
  }

  /** A thread's ring after an append: what is left of it, and the event if it is the thread's. */
  lemma NextItems(lim: Bounds, s: State, e: Event, t: string) returns (drop: nat)
    ensures var ring := Items(s.perThread, t);
            && drop <= |ring|
            && Items(NextPerThread(lim, s, e), t) ==
               if Resolve(s.actionThreads, e) == Some(t) then Pushed(ring[drop..], Stamped(s.latestSeq + 1, e), lim.perThread)
               else ring[drop..]
  {
    drop := ForgetDrops(s.perThread, Evicted(lim, s.global), t);
  }

  lemma AppendAdvancesThread(lim: Bounds, s: State, e: Event, t: string)
    ensures Advances(Items(s.perThread, t), Items(NextPerThread(lim, s, e), t), s.latestSeq)
  {
    var drop := NextItems(lim, s, e, t);
    if Resolve(s.actionThreads, e) == Some(t) {
      PushAdvances(Items(s.perThread, t), drop, Stamped(s.latestSeq + 1, e), lim.perThread,
                   Items(NextPerThread(lim, s, e), t), s.latestSeq);
    } else {
      DropAdvances(Items(s.perThread, t), drop, s.latestSeq, Items(NextPerThread(lim, s, e), t));
    }
  }

  /** One append only drops old events from a view and adds newer ones. */
  lemma AppendAdvances(lim: Bounds, s: State, e: Event, t: string)
    ensures Advances(s.global, Append(lim, s, e).global, s.latestSeq)
    ensures Advances(Items(s.perThread, t), Items(Append(lim, s, e).perThread, t), s.latestSeq)
  {
    assert s.global[0..] == s.global;
    PushAdvances(s.global, 0, NextRecord(s, e), lim.total, Append(lim, s, e).global, s.latestSeq);
    AppendAdvancesThread(lim, s, e, t);
  }

  lemma AppendShrinksViews(lim: Bounds, s: State, e: Event, view: nat, t: string)
    requires view <= s.latestSeq
    ensures IsSuffix(EventsThrough(Append(lim, s, e), view), EventsThrough(s, view))
    ensures IsSuffix(EventsForThread(Append(lim, s, e), t, view), EventsForThread(s, t, view))
  {
    var next := Append(lim, s, e);
    AppendAdvances(lim, s, e, t);
    AdvanceShrinksView(s.global, next.global, s.latestSeq, view);
    AdvanceShrinksView(Items(s.perThread, t), Items(next.perThread, t), s.latestSeq, view);
  }

  /** What a snapshot reads of a journal that has since seen `events`. */
  ghost predicate ReadsWithin(lim: Bounds, events: seq<Event>, earlier: seq<Event>, view: nat, t: string) {
    && IsSuffix(EventsThrough(Run(lim, events), view), EventsThrough(Run(lim, earlier), view))
    && IsSuffix(EventsForThread(Run(lim, events), t, view), EventsForThread(Run(lim, earlier), t, view))
  }

  lemma LastEventShrinks(lim: Bounds, events: seq<Event>, view: nat, t: string)
    requires view < |events|
    ensures ReadsWithin(lim, events, events[..|events| - 1], view, t)
  {
    var front := events[..|events| - 1];
    LatestSeqCounts(lim, front);
    AppendShrinksViews(lim, Run(lim, front), events[|events| - 1], view, t);
  }

  lemma {:induction false} PrefixReads(lim: Bounds, events: seq<Event>, first: seq<Event>, view: nat, t: string)
    requires view <= |first| && first <= events
    ensures ReadsWithin(lim, events, first, view, t)
    decreases |events|
  {
    if |first| == |events| {
      assert first == events;
    } else {
      LastEventShrinks(lim, events, view, t);
      PrefixReads(lim, events[..|events| - 1], first, view, t);
      WithinTransitive(lim, events, events[..|events| - 1], first, view, t);
    }
  }

  lemma WithinTransitive(lim: Bounds, last: seq<Event>, mid: seq<Event>, first: seq<Event>, view: nat, t: string)
    requires ReadsWithin(lim, last, mid, view, t) && ReadsWithin(lim, mid, first, view, t)
    ensures ReadsWithin(lim, last, first, view, t)
  {
    var a, b, c := Run(lim, last), Run(lim, mid), Run(lim, first);
    SuffixTransitive(EventsThrough(a, view), EventsThrough(b, view), EventsThrough(c, view));
    SuffixTransitive(EventsForThread(a, t, view), EventsForThread(b, t, view), EventsForThread(c, t, view));
  }

  /**
   A feed snapshot is a journal reference and a number. Reading it again after
   any further appends gives a suffix of what the same read gave before,
   globally and for each thread, and never an event newer than the snapshot.
   */
  lemma SnapshotReadsShrink(lim: Bounds, events: seq<Event>, more: seq<Event>, view: nat, t: string)
    requires view <= |events|
    ensures ReadsWithin(lim, events + more, events, view, t)
    ensures forall x :: x in EventsForThread(Run(lim, events + more), t, view) ==> x.stamp <= view
  {
    PrefixReads(lim, events + more, events, view, t);
  }
}
