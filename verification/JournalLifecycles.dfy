/** What the lifecycle map holds, and what reads of it give. */
module JournalLifecycles {
  import opened RecencyMap
  import opened GatewayEvents
  import opened JournalModel
  import opened JournalActions

  /**
   After any appends, `actionLifecycles` is exactly the most recently touched
   distinct actions, in recency order, each with the event that last touched it.
   */
  lemma {:induction false} LifecyclesAreRecent(lim: Bounds, events: seq<Event>)
    ensures Run(lim, events).actionLifecycles == Recent(TouchLog(lim, events), lim.actions)
  {
    if events != [] {
      var front, e := events[..|events| - 1], events[|events| - 1];
      LifecyclesAreRecent(lim, front);
      LatestSeqCounts(lim, front);
      var threads := Run(lim, front).actionThreads;
      TouchAllIsRecent(TouchLog(lim, front), Touches(threads, e, Resolve(threads, e), |events|), lim.actions);
    }
  }

  lemma {:induction false} InsertKeepsMembers(v: Lifecycle, sorted: seq<Lifecycle>)
    ensures multiset(InsertByStamp(v, sorted)) == multiset{v} + multiset(sorted)
  {
    if sorted != [] && v.stamp > sorted[0].stamp {
      InsertKeepsMembers(v, sorted[1..]);
      assert sorted == [sorted[0]] + sorted[1..];
    }
  }

  lemma {:induction false} SortKeepsMembers(s: seq<Lifecycle>)
    ensures multiset(SortByStamp(s)) == multiset(s)
  {
    if s != [] {
      SortKeepsMembers(s[1..]);
      InsertKeepsMembers(s[0], SortByStamp(s[1..]));
      assert s == [s[0]] + s[1..];
    }
  }

  ghost predicate ByStamp(s: seq<Lifecycle>) {
    forall i, j :: 0 <= i < j < |s| ==> s[i].stamp <= s[j].stamp
  }

  lemma {:induction false} InsertKeepsOrder(v: Lifecycle, sorted: seq<Lifecycle>)
    requires ByStamp(sorted)
    ensures ByStamp(InsertByStamp(v, sorted))
    ensures var r := InsertByStamp(v, sorted);
            r != [] && (r[0] == v || (sorted != [] && r[0] == sorted[0]))
  {
    if sorted != [] && v.stamp > sorted[0].stamp {
      InsertKeepsOrder(v, sorted[1..]);
    }
  }

  lemma {:induction false} SortOrders(s: seq<Lifecycle>)
    ensures ByStamp(SortByStamp(s))
  {
    if s != [] {
      SortOrders(s[1..]);
      InsertKeepsOrder(s[0], SortByStamp(s[1..]));
    }
  }

  /** Exactly the retained lifecycles of the thread numbered in the window. */
  lemma {:induction false} ReadSelects(m: Lifecycles, t: string, after: nat, latest: nat, v: Lifecycle)
    ensures v in LifecyclesOfThread(m, t, after, latest) <==>
            v.threadId == t && after < v.stamp <= latest && exists i :: 0 <= i < |m| && m[i].value == v
  {
    if m != [] {
      ReadSelects(m[1..], t, after, latest, v);
      if i :| 0 <= i < |m| && m[i].value == v && i > 0 {
        assert m[1..][i - 1].value == v;
      }
    }
  }

  lemma AppendKeepsOldLifecycles(lim: Bounds, s: State, e: Event, v: Entry<Lifecycle>)
    requires v in NextLifecycles(lim, s, e) && v.value.stamp <= s.latestSeq
    ensures v in s.actionLifecycles
  {
    var uses := Touches(s.actionThreads, e, Resolve(s.actionThreads, e), s.latestSeq + 1);
    TouchAllMember(s.actionLifecycles, uses, lim.actions, v);
    assert forall i :: 0 <= i < |uses| ==> uses[i].value.stamp == s.latestSeq + 1;
  }

  ghost predicate Holds(lim: Bounds, events: seq<Event>, v: Entry<Lifecycle>) {
    v in Run(lim, events).actionLifecycles
  }

  lemma LastEventKeepsOld(lim: Bounds, events: seq<Event>, v: Entry<Lifecycle>)
    requires events != [] && Holds(lim, events, v) && v.value.stamp < |events|
    ensures Holds(lim, events[..|events| - 1], v)
  {
    var front := events[..|events| - 1];
    LatestSeqCounts(lim, front);
    AppendKeepsOldLifecycles(lim, Run(lim, front), events[|events| - 1], v);
  }

  lemma {:induction false} OldLifecyclesOnlyLeave(lim: Bounds, events: seq<Event>, first: seq<Event>, v: Entry<Lifecycle>)
    requires first <= events && Holds(lim, events, v) && v.value.stamp <= |first|
    ensures Holds(lim, first, v)
    decreases |events|
  {
    if |first| == |events| {
      assert first == events;
    } else {
      LastEventKeepsOld(lim, events, v);
      OldLifecyclesOnlyLeave(lim, events[..|events| - 1], first, v);
    }
  }

  /** Re-reading a thread's lifecycles through an old snapshot yields no lifecycle the first read did not. */
  lemma LifecycleReadsShrink(lim: Bounds, events: seq<Event>, more: seq<Event>, t: string, after: nat, view: nat, v: Lifecycle)
    requires view <= |events|
    requires v in ActionLifecyclesForThread(Run(lim, events + more), t, after, view)
    ensures v in ActionLifecyclesForThread(Run(lim, events), t, after, view) && v.stamp <= view
  {
    var first, later := Run(lim, events).actionLifecycles, Run(lim, events + more).actionLifecycles;
    SortKeepsMembers(LifecyclesOfThread(later, t, after, view));
    assert v in multiset(LifecyclesOfThread(later, t, after, view));
    ReadSelects(later, t, after, view, v);
    var i :| 0 <= i < |later| && later[i].value == v;
    OldLifecyclesOnlyLeave(lim, events + more, events, later[i]);
    ReadSelects(first, t, after, view, v);
    SortKeepsMembers(LifecyclesOfThread(first, t, after, view));
    assert v in multiset(SortByStamp(LifecyclesOfThread(first, t, after, view)));
  }
}
