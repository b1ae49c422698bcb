/** What the journal holds on record about each action, said of the events appended. */
module JournalRecords {
  import opened Sequences
  import opened RecencyMap
  import opened GatewayEvents
  import opened JournalModel
  import opened JournalActions
  import opened JournalLifecycles
  import opened JournalRouting

  // ----- lifecycle records -----

  /** An action event records itself under its action; a completed turn, under each action it settles. */
  ghost predicate Records(lim: Bounds, h: History, n: nat, x: Entry<Lifecycle>)
    requires n < |h.events|
  {
    var e, thread := h.events[n], h.threads[n];
    || (x.key != "" && About(e, x.key) && thread.Some? && x.value == Lifecycle(n + 1, e, thread.value))
    || (e.TurnCompleted? && exists m: nat :: SettledAt(lim, h, m, n, x))
  }

  ghost predicate SettledAt(lim: Bounds, h: History, m: nat, n: nat, x: Entry<Lifecycle>)
    requires n < |h.events|
  {
    && Held(lim, h, m, n) && Ends(h, m, n)
    && x == Entry(Memory(h, m).key, Lifecycle(n + 1, h.events[n], Memory(h, m).value.threadId))
  }

  lemma {:induction false} SettledMember(threads: Threads, turnId: string, thread: Option<string>, y: Entry<Remembered>)
    ensures y in SettledActions(threads, turnId, thread) <==> y in threads && SettledByTurn(y.value, turnId, thread)
  {
    if threads != [] {
      SettledMember(threads[1..], turnId, thread, y);
      assert threads == [threads[0]] + threads[1..];
    }
  }

  lemma SettledIff(threads: Threads, e: Event, thread: Option<string>, y: Entry<Remembered>)
    requires e.TurnCompleted?
    ensures y in SettledActions(threads, e.turnId, thread) <==> y in threads && EndsMemory(e, thread, y)
  {
    SettledMember(threads, e.turnId, thread, y);
  }

  lemma ClosingIff(settled: Threads, e: Event, stamp: nat, x: Entry<Lifecycle>)
    ensures x in Closings(settled, e, stamp) <==>
            exists y :: y in settled && x == Entry(y.key, Lifecycle(stamp, e, y.value.threadId))
  {
    if x in Closings(settled, e, stamp) {
      var i :| 0 <= i < |settled| && Closings(settled, e, stamp)[i] == x;
      assert settled[i] in settled;
    }
    if y :| y in settled && x == Entry(y.key, Lifecycle(stamp, e, y.value.threadId)) {
      var i :| 0 <= i < |settled| && settled[i] == y;
      assert Closings(settled, e, stamp)[i] == x;
    }
  }

  /** What event `n` writes into the lifecycle map. */
  function TouchesAt(lim: Bounds, events: seq<Event>, n: nat): seq<Entry<Lifecycle>>
    requires n < |events|
  {
    Touches(Run(lim, events[..n]).actionThreads, events[n], ThreadAt(lim, events, n), n + 1)
  }

  lemma CompletionRecords(lim: Bounds, events: seq<Event>, n: nat, x: Entry<Lifecycle>)
    requires n < |events| && events[n].TurnCompleted?
    ensures x in TouchesAt(lim, events, n) <==> exists m: nat :: SettledAt(lim, HistoryOf(lim, events), m, n, x)
  {
    var h, threads := HistoryOf(lim, events), Run(lim, events[..n]).actionThreads;
    var e, thread := events[n], ThreadAt(lim, events, n);
    var settled := SettledActions(threads, e.turnId, thread);
    ClosingIff(settled, e, n + 1, x);
    if y :| y in settled && x == Entry(y.key, Lifecycle(n + 1, e, y.value.threadId)) {
      SettledIff(threads, e, thread, y);
      RememberedIff(lim, events, n, y);
      var m: nat :| Held(lim, h, m, n) && y == Memory(h, m);
      assert SettledAt(lim, h, m, n, x);
    }
    if m: nat :| SettledAt(lim, h, m, n, x) {
      RememberedIff(lim, events, n, Memory(h, m));
      SettledIff(threads, e, thread, Memory(h, m));
    }
  }

  lemma EventRecords(lim: Bounds, events: seq<Event>, n: nat, x: Entry<Lifecycle>)
    requires n < |events|
    ensures x in TouchesAt(lim, events, n) <==> Records(lim, HistoryOf(lim, events), n, x)
  {
    if events[n].TurnCompleted? { CompletionRecords(lim, events, n, x); }
  }

  // ----- the last record of an action -----

  lemma ClosingsDistinct(settled: Threads, e: Event, stamp: nat)
    requires Distinct(settled)
    ensures Distinct(Closings(settled, e, stamp))
  {
  }

  lemma {:induction false} SettledDistinct(threads: Threads, turnId: string, thread: Option<string>)
    requires Distinct(threads)
    ensures Distinct(SettledActions(threads, turnId, thread))
  {
    if threads != [] {
      var rest := SettledActions(threads[1..], turnId, thread);
      SettledDistinct(threads[1..], turnId, thread);
      forall i | 0 <= i < |rest| ensures rest[i].key != threads[0].key {
        SettledMember(threads[1..], turnId, thread, rest[i]);
      }
    }
  }

  lemma TouchesDistinct(lim: Bounds, events: seq<Event>, n: nat)
    requires n < |events|
    ensures Distinct(TouchesAt(lim, events, n))
  {
    var threads, e, thread := Run(lim, events[..n]).actionThreads, events[n], ThreadAt(lim, events, n);
    MapsStayTidy(lim, events[..n]);
    if e.TurnCompleted? {
      SettledDistinct(threads, e.turnId, thread);
      ClosingsDistinct(SettledActions(threads, e.turnId, thread), e, n + 1);
    }
  }

  lemma TouchLogNext(lim: Bounds, events: seq<Event>, n: nat)
    requires n < |events|
    ensures TouchLog(lim, events[..n + 1]) == TouchLog(lim, events[..n]) + TouchesAt(lim, events, n)
  {
    var front := events[..n + 1];
    assert front[..|front| - 1] == events[..n] && front[|front| - 1] == events[n];
    LogThreads(lim, events, n);
  }

  /** Everything each event writes. */
  function AllTouches(lim: Bounds, events: seq<Event>): (r: seq<seq<Entry<Lifecycle>>>)
    ensures |r| == |events| && forall n :: 0 <= n < |r| ==> r[n] == TouchesAt(lim, events, n)
  {
    seq(|events|, n requires 0 <= n < |events| => TouchesAt(lim, events, n))
  }

  lemma NothingTouched(lim: Bounds, events: seq<Event>)
    ensures TouchLog(lim, events[..0]) == []
  {
    assert events[..0] == [];
  }

  lemma {:induction false} TouchLogIsUses(lim: Bounds, events: seq<Event>, n: nat)
    requires n <= |events|
    ensures TouchLog(lim, events[..n]) == AllUses(AllTouches(lim, events)[..n])
  {
    if n == 0 {
      NothingTouched(lim, events);
    } else {
      TouchLogIsUses(lim, events, n - 1);
      TouchLogNext(lim, events, n - 1);
      BatchesNext(AllTouches(lim, events), n - 1);
    }
  }

  /** The events' last writes are what is last used. */
  lemma LastUseIff(lim: Bounds, events: seq<Event>, x: Entry<Lifecycle>)
    ensures x in LastUses(TouchLog(lim, events)) <==> exists k: nat :: LastAt(AllTouches(lim, events), k, x)
  {
    var all := AllTouches(lim, events);
    assert events[..|events|] == events && all[..|events|] == all;
    TouchLogIsUses(lim, events, |events|);
    forall n | 0 <= n < |all| ensures Distinct(all[n]) { TouchesDistinct(lim, events, n); }
    LastUseAt(all, x);
  }

  ghost predicate RecordsUnder(lim: Bounds, h: History, n: nat, key: string)
    requires n < |h.events|
  {
    exists x: Entry<Lifecycle> :: x.key == key && Records(lim, h, n, x)
  }

  lemma UnderIff(lim: Bounds, events: seq<Event>, n: nat, key: string)
    requires n < |events|
    ensures key in Keys(TouchesAt(lim, events, n)) <==> RecordsUnder(lim, HistoryOf(lim, events), n, key)
  {
    var h, touches := HistoryOf(lim, events), TouchesAt(lim, events, n);
    if key in Keys(touches) {
      var i :| 0 <= i < |touches| && touches[i].key == key;
      EventRecords(lim, events, n, touches[i]);
    }
    if x: Entry<Lifecycle> :| x.key == key && Records(lim, h, n, x) {
      EventRecords(lim, events, n, x);
      InKeys(touches, x);
    }
  }

  /** Event `k` records `x`, and no later event records anything under its action. */
  ghost predicate OnRecord(lim: Bounds, h: History, k: nat, x: Entry<Lifecycle>) {
    k < |h.events| && Records(lim, h, k, x) && forall j: nat :: k < j < |h.events| ==> !RecordsUnder(lim, h, j, x.key)
  }

  lemma OnRecordIff(lim: Bounds, events: seq<Event>, k: nat, x: Entry<Lifecycle>)
    requires k < |events|
    ensures LastAt(AllTouches(lim, events), k, x) <==> OnRecord(lim, HistoryOf(lim, events), k, x)
  {
    EventRecords(lim, events, k, x);
    forall j: nat | k < j < |events|
      ensures x.key in Keys(TouchesAt(lim, events, j)) <==> RecordsUnder(lim, HistoryOf(lim, events), j, x.key)
    {
      UnderIff(lim, events, j, x.key);
    }
  }

  /**
   The lifecycle map holds an action's last record and nothing else, and all of them
   while it has room.
   */
  lemma LifecycleMeans(lim: Bounds, events: seq<Event>, x: Entry<Lifecycle>)
    ensures var h, lifecycles := HistoryOf(lim, events), Run(lim, events).actionLifecycles;
            && (x in lifecycles ==> exists k: nat :: OnRecord(lim, h, k, x))
            && (|lifecycles| < lim.actions && (exists k: nat :: OnRecord(lim, h, k, x)) ==> x in lifecycles)
  {
    var uses := LastUses(TouchLog(lim, events));
    LifecyclesAreRecent(lim, events);
    LastUseIff(lim, events, x);
    if k: nat :| LastAt(AllTouches(lim, events), k, x) {
      OnRecordIff(lim, events, k, x);
    }
    if k: nat :| OnRecord(lim, HistoryOf(lim, events), k, x) {
      OnRecordIff(lim, events, k, x);
    }
  }

  // ----- a new action event -----

  lemma {:induction false} ReadAfterPrior(prior: Lifecycles, x: Entry<Lifecycle>, t: string, latest: nat)
    requires forall l :: l in prior ==> l.value.stamp <= latest
    requires x.value.stamp == latest + 1 && x.value.threadId == t
    ensures LifecyclesOfThread(prior + [x], t, latest, latest + 1) == [x.value]
  {
    if prior == [] {
      assert (prior + [x])[0] == x && (prior + [x])[1..] == [];
    } else {
      assert (prior + [x])[0] == prior[0] && (prior + [x])[1..] == prior[1..] + [x];
      ReadAfterPrior(prior[1..], x, t, latest);
    }
  }

  lemma ReadNewest(lifecycles: Lifecycles, x: Entry<Lifecycle>, bound: nat, t: string, latest: nat)
    requires bound > 0 && forall l :: l in lifecycles ==> l.value.stamp <= latest
    requires x.value.stamp == latest + 1 && x.value.threadId == t
    ensures LifecyclesOfThread(Touch(lifecycles, x, bound), t, latest, latest + 1) == [x.value]
  {
    var next := Touch(lifecycles, x, bound);
    var prior := next[..|next| - 1];
    assert next == prior + [x];
    forall l | l in prior ensures l.value.stamp <= latest {
      assert l in Delete(lifecycles, x.key);
      DeleteMember(lifecycles, x.key, l);
    }
    ReadAfterPrior(prior, x, t, latest);
  }

  lemma ActionRecorded(lim: Bounds, s: State, e: Event, id: string, t: string)
    requires id != "" && About(e, id) && Resolve(s.actionThreads, e) == Some(t)
    ensures NextLifecycles(lim, s, e) == Touch(s.actionLifecycles, Entry(id, Lifecycle(s.latestSeq + 1, e, t)), lim.actions)
  {
    TouchOne(s.actionLifecycles, Entry(id, Lifecycle(s.latestSeq + 1, e, t)), lim.actions);
  }

  lemma SortedAlone(v: Lifecycle)
    ensures SortByStamp([v]) == [v]
  {
    assert [v][1..] == [];
  }

  lemma ActionAppended(lim: Bounds, s: State, e: Event, id: string, t: string)
    requires forall l :: l in s.actionLifecycles ==> l.value.stamp <= s.latestSeq
    requires id != "" && About(e, id) && Resolve(s.actionThreads, e) == Some(t)
    ensures SortByStamp(LifecyclesOfThread(NextLifecycles(lim, s, e), t, s.latestSeq, s.latestSeq + 1)) ==
            [Lifecycle(s.latestSeq + 1, e, t)]
  {
    var x := Entry(id, Lifecycle(s.latestSeq + 1, e, t));
    ActionRecorded(lim, s, e, id, t);
    ReadNewest(s.actionLifecycles, x, lim.actions, t, s.latestSeq);
    SortedAlone(x.value);
  }

  /** A new action event is what its thread reads of the actions since. */
  lemma LastActionIsRead(lim: Bounds, events: seq<Event>, id: string, t: string)
    requires events != [] && id != "" && About(events[|events| - 1], id) && ThreadAt(lim, events, |events| - 1) == Some(t)
    ensures ActionLifecyclesForThread(Run(lim, events), t, |events| - 1, |events|) ==
            [Lifecycle(|events|, events[|events| - 1], t)]
  {
    var n := |events| - 1;
    LatestSeqCounts(lim, events[..n]);
    LogThreads(lim, events, n);
    MapsStayTidy(lim, events[..n]);
    ActionAppended(lim, Run(lim, events[..n]), events[n], id, t);
  }
}
