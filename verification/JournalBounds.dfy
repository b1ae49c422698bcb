/** Which bounds make the two action maps agree after every run. */
module JournalBounds {
  import opened Sequences
  import opened RecencyMap
  import opened GatewayEvents
  import opened JournalModel
  import opened JournalActions
  import opened JournalAgreement

  /** The action id of an opening event is present. */
  predicate NamesAction(e: Event) {
    OpensAction(e) ==> e.action.actionId != ""
  }

  ghost predicate AllNamed(events: seq<Event>) {
    forall i :: 0 <= i < |events| ==> NamesAction(events[i])
  }

  // ----- enough room: counting -----

  /** Every named action among the remembered ones is retained with the one being pushed out. */
  lemma PushedOutKeys(lim: Bounds, s: State, e: Event)
    requires MapsTidy(lim, s.actionThreads, s.actionLifecycles, s.latestSeq) && PushesOutRetained(lim, s, e)
    ensures Keys(Gathered(s, e)) - {""} <= Keys(NextLifecycles(lim, s, e))
  {
    var all, lifecycles := Gathered(s, e), NextLifecycles(lim, s, e);
    GatheredTidy(lim, s, e);
    GatheredSize(lim, s, e);
    var i :| 0 <= i < |lifecycles| && lifecycles[i].key == all[0].key;
    assert PairFits(lifecycles[i], all[0], Keys(lifecycles));
    forall key | key in Keys(all) && key != "" ensures key in Keys(lifecycles) {
      var j :| 0 <= j < |all| && all[j].key == key;
      assert PairFits(lifecycles[i], all[j], Keys(lifecycles));
    }
  }

  /** So pushing out a retained action takes as many lifecycles as named actions are remembered. */
  lemma PushOutCounts(lim: Bounds, s: State, e: Event)
    requires MapsTidy(lim, s.actionThreads, s.actionLifecycles, s.latestSeq) && PushesOutRetained(lim, s, e)
    ensures lim.total <= lim.actions
    ensures NamesAction(e) && "" !in Keys(s.actionThreads) ==> lim.total < lim.actions
  {
    var all, keys := Gathered(s, e), Keys(Gathered(s, e));
    PushedOutKeys(lim, s, e);
    GatheredKeys(lim, s, e);
    RetainedCount(lim, s, e);
    SubsetSize(keys - {""}, Keys(NextLifecycles(lim, s, e)));
    if NamesAction(e) && "" !in Keys(s.actionThreads) {
      assert keys - {""} == keys;
    }
  }

  lemma RetainedCount(lim: Bounds, s: State, e: Event)
    requires MapsTidy(lim, s.actionThreads, s.actionLifecycles, s.latestSeq)
    ensures |Keys(NextLifecycles(lim, s, e))| <= lim.actions
  {
    AppendKeepsTidy(lim, s, e);
    KeysSize(NextLifecycles(lim, s, e));
  }

  lemma GatheredKeys(lim: Bounds, s: State, e: Event)
    requires MapsTidy(lim, s.actionThreads, s.actionLifecycles, s.latestSeq) && PushesOutRetained(lim, s, e)
    ensures |Keys(Gathered(s, e))| == lim.total + 1
    ensures NamesAction(e) && "" !in Keys(s.actionThreads) ==> "" !in Keys(Gathered(s, e))
  {
    var t := MemoryOf(s, e, Resolve(s.actionThreads, e).value);
    TouchDistinct(s.actionThreads, t, lim.total);
    DistinctSize(Gathered(s, e));
    DeleteAbsent(s.actionThreads, t.key);
    KeysConcat(s.actionThreads, [t]);
    KeysHead([t]);
    assert Keys([t][1..]) == {};
  }

  lemma AppendStaysNamed(lim: Bounds, s: State, e: Event)
    requires NamesAction(e) && Distinct(s.actionThreads) && "" !in Keys(s.actionThreads)
    ensures "" !in Keys(NextThreads(lim, s, e))
  {
    var thread := Resolve(s.actionThreads, e);
    if OpensAction(e) {
      OpeningRemembers(lim, s, e);
      if thread.Some? { TouchKeys(s.actionThreads, MemoryOf(s, e, thread.value), lim.total); }
    } else if ClosesAction(e) {
      ClosingForgets(lim, s, e);
      DeleteDistinct(s.actionThreads, e.actionId);
    } else if e.TurnCompleted? {
      CompletionAppends(lim, s, e);
      UnsettledShrinks(s.actionThreads, e.turnId, thread);
    } else {
      OtherwiseUnchanged(lim, s, e);
    }
  }

  lemma {:induction false} RunStaysNamed(lim: Bounds, events: seq<Event>)
    requires AllNamed(events)
    ensures "" !in Keys(Run(lim, events).actionThreads)
  {
    if events != [] {
      var front := events[..|events| - 1];
      RunStaysNamed(lim, front);
      MapsStayTidy(lim, front);
      AppendStaysNamed(lim, Run(lim, front), events[|events| - 1]);
    }
  }

  /** With more room for remembered actions than for lifecycles, or as much and every action named, the maps agree. */
  lemma {:induction false} RoomKeepsAgreement(lim: Bounds, events: seq<Event>)
    requires lim.actions < lim.total || (lim.actions == lim.total && AllNamed(events))
    ensures Agrees(Run(lim, events))
  {
    if events != [] {
      var front, e := events[..|events| - 1], events[|events| - 1];
      assert events == front + [e];
      RoomKeepsAgreement(lim, front);
      AppendBreaksAgreementIff(lim, front, e);
      if PushesOutRetained(lim, Run(lim, front), e) {
        MapsStayTidy(lim, front);
        PushOutCounts(lim, Run(lim, front), e);
        if AllNamed(events) { RunStaysNamed(lim, front); }
        assert false;
      }
    }
  }

  // ----- too little room: floods -----

  function Request(id: string): Event {
    ActionRequested(Action(id, Some("thread"), None))
  }

  lemma RequestAppends(lim: Bounds, s: State, id: string)
    ensures var stamp := s.latestSeq + 1;
            && NextThreads(lim, s, Request(id)) == Touch(s.actionThreads, Entry(id, Remembered(stamp, "thread", None)), lim.total)
            && NextLifecycles(lim, s, Request(id)) ==
               if id == "" then s.actionLifecycles
               else Touch(s.actionLifecycles, Entry(id, Lifecycle(stamp, Request(id), "thread")), lim.actions)
  {
    var e := Request(id);
    assert Resolve(s.actionThreads, e) == Some("thread");
    assert MemoryOf(s, e, "thread") == Entry(id, Remembered(s.latestSeq + 1, "thread", None));
    assert RecordOf(s, e, "thread") == Entry(id, Lifecycle(s.latestSeq + 1, e, "thread"));
    ActionTouches(lim, s, e);
    OpeningRemembers(lim, s, e);
  }

  /** The `k`th of a family of distinct action ids. */
  function FloodId(k: nat): (id: string)
    ensures |id| == k + 1
  {
    if k == 0 then "a" else FloodId(k - 1) + "a"
  }

  function FloodRequest(k: nat): Event {
    Request(FloodId(k))
  }

  function FloodRecord(k: nat): Entry<Lifecycle> {
    Entry(FloodId(k), Lifecycle(k + 1, FloodRequest(k), "thread"))
  }

  function FloodMemory(k: nat): Entry<Remembered> {
    Entry(FloodId(k), Remembered(k + 1, "thread", None))
  }

  /** `n` requests for distinct actions, and what they leave without bounds. */
  function Flood(n: nat): seq<Event> {
    seq(n, k requires k >= 0 => FloodRequest(k))
  }

  function FloodLifecycles(n: nat): Lifecycles {
    seq(n, k requires k >= 0 => FloodRecord(k))
  }

  function FloodThreads(n: nat): Threads {
    seq(n, k requires k >= 0 => FloodMemory(k))
  }

  lemma FreshTouch<V>(m: seq<Entry<V>>, x: Entry<V>, bound: nat)
    requires forall k :: 0 <= k < |m| ==> m[k].key != x.key
    ensures Touch(m, x, bound) == LastN(m + [x], bound)
  {
    DeleteAbsent(m, x.key);
  }

  lemma FloodRecords(n: nat, bound: nat)
    requires n < bound
    ensures Touch(FloodLifecycles(n), FloodRecord(n), bound) == FloodLifecycles(n + 1)
  {
    FreshTouch(FloodLifecycles(n), FloodRecord(n), bound);
    assert FloodLifecycles(n + 1) == FloodLifecycles(n) + [FloodRecord(n)];
  }

  lemma FloodMemories(n: nat, bound: nat)
    requires bound > 0
    ensures Touch(LastN(FloodThreads(n), bound), FloodMemory(n), bound) == LastN(FloodThreads(n + 1), bound)
  {
    var kept := LastN(FloodThreads(n), bound);
    forall k | 0 <= k < |kept| ensures kept[k].key != FloodMemory(n).key {
      assert kept[k] == FloodMemory(n - |kept| + k);
    }
    FreshTouch(kept, FloodMemory(n), bound);
    LastNPush(FloodThreads(n), FloodMemory(n), bound);
    assert FloodThreads(n + 1) == FloodThreads(n) + [FloodMemory(n)];
  }

  lemma FloodTouches(lim: Bounds, k: nat, s: State)
    requires s.latestSeq == k
    ensures NextLifecycles(lim, s, FloodRequest(k)) == Touch(s.actionLifecycles, FloodRecord(k), lim.actions)
    ensures NextThreads(lim, s, FloodRequest(k)) == Touch(s.actionThreads, FloodMemory(k), lim.total)
  {
    RequestAppends(lim, s, FloodId(k));
  }

  lemma FloodAppend(lim: Bounds, k: nat, s: State)
    requires k < lim.actions && s.latestSeq == k
    requires s.actionLifecycles == FloodLifecycles(k) && s.actionThreads == LastN(FloodThreads(k), lim.total)
    ensures NextLifecycles(lim, s, FloodRequest(k)) == FloodLifecycles(k + 1)
    ensures NextThreads(lim, s, FloodRequest(k)) == LastN(FloodThreads(k + 1), lim.total)
  {
    FloodTouches(lim, k, s);
    FloodRecords(k, lim.actions);
    FloodMemories(k, lim.total);
  }

  lemma {:induction false} FloodRun(lim: Bounds, n: nat)
    requires n <= lim.actions
    ensures Run(lim, Flood(n)).actionLifecycles == FloodLifecycles(n)
    ensures Run(lim, Flood(n)).actionThreads == LastN(FloodThreads(n), lim.total)
  {
    if n > 0 {
      var k := n - 1;
      assert Flood(n) == Flood(k) + [FloodRequest(k)];
      RunPush(lim, Flood(k), FloodRequest(k));
      FloodRun(lim, k);
      LatestSeqCounts(lim, Flood(k));
      FloodAppend(lim, k, Run(lim, Flood(k)));
    }
  }

  lemma FirstNotRemembered(threads: Threads, n: nat)
    requires threads == FloodThreads(n + 1)[1..]
    ensures !RememberedIn(threads, FloodRecord(0))
  {
    forall t | t in threads ensures t.key != FloodId(0) {
      var j :| 0 <= j < |threads| && threads[j] == t;
      assert t == FloodMemory(j + 1);
    }
  }

  /** With room for more lifecycles than remembered actions, a flood of requests breaks the agreement. */
  lemma FloodBreaksAgreement(lim: Bounds)
    requires lim.total < lim.actions
    ensures AllNamed(Flood(lim.total + 1))
    ensures !Agrees(Run(lim, Flood(lim.total + 1)))
  {
    var n := lim.total + 1;
    FloodRun(lim, n);
    FirstNotRemembered(LastN(FloodThreads(n), lim.total), lim.total);
    assert FloodLifecycles(n)[0] == FloodRecord(0);
  }

  const UNNAMED_REQUEST := Request("")

  lemma FloodAgrees(lim: Bounds, n: nat)
    requires n <= lim.actions && n <= lim.total
    ensures Agrees(Run(lim, Flood(n)))
  {
    FloodRun(lim, n);
    forall l | l in FloodLifecycles(n) ensures RememberedIn(FloodThreads(n), l) {
      var i :| 0 <= i < n && FloodLifecycles(n)[i] == l;
      assert FloodThreads(n)[i] in FloodThreads(n) && SameRecord(l, FloodThreads(n)[i]);
    }
  }

  lemma FullFloodPushesOut(lim: Bounds, s: State)
    requires s.actionLifecycles == FloodLifecycles(lim.total) && s.actionThreads == FloodThreads(lim.total)
    ensures PushesOutRetained(lim, s, UNNAMED_REQUEST)
  {
    ActionTouches(lim, s, UNNAMED_REQUEST);
    assert s.actionThreads[0] == FloodMemory(0) && s.actionLifecycles[0] == FloodRecord(0);
    assert s.actionLifecycles[0].key in Keys(s.actionLifecycles);
  }

  /** One request without an id, once as many named ones as fit are remembered and retained, breaks the agreement. */
  lemma UnnamedBreaksAgreement(lim: Bounds)
    requires lim.total <= lim.actions
    ensures !Agrees(Run(lim, Flood(lim.total) + [UNNAMED_REQUEST]))
  {
    FloodRun(lim, lim.total);
    FloodAgrees(lim, lim.total);
    FullFloodPushesOut(lim, Run(lim, Flood(lim.total)));
    AppendBreaksAgreementIff(lim, Flood(lim.total), UNNAMED_REQUEST);
  }

  /**
   After every run that names its actions, each retained lifecycle that is
   still open is remembered with the same number and thread -- exactly when no
   more lifecycles are retained than actions remembered.
   */
  lemma OpenActionsAreRemembered(lim: Bounds)
    ensures (forall events :: AllNamed(events) ==> Agrees(Run(lim, events))) <==> lim.actions <= lim.total
  {
    if lim.actions <= lim.total {
      forall events | AllNamed(events) ensures Agrees(Run(lim, events)) { RoomKeepsAgreement(lim, events); }
    } else {
      FloodBreaksAgreement(lim);
    }
  }

  /** After every run at all -- exactly when fewer lifecycles are retained than actions remembered. */
  lemma EveryRunAgreesIff(lim: Bounds)
    ensures (forall events :: Agrees(Run(lim, events))) <==> lim.actions < lim.total
  {
    if lim.actions < lim.total {
      forall events ensures Agrees(Run(lim, events)) { RoomKeepsAgreement(lim, events); }
    } else {
      UnnamedBreaksAgreement(lim);
    }
  }

  /** The Workbench's equal bounds: safe while actions are named, and only then. */
  lemma WorkbenchAgreement()
    ensures forall events :: AllNamed(events) ==> Agrees(Run(WORKBENCH_BOUNDS, events))
    ensures exists events :: !Agrees(Run(WORKBENCH_BOUNDS, events))
  {
    OpenActionsAreRemembered(WORKBENCH_BOUNDS);
    EveryRunAgreesIff(WORKBENCH_BOUNDS);
  }

  lemma FirstNamed(lim: Bounds)
    ensures NextLifecycles(lim, EMPTY, Request("a")) == [Entry("a", Lifecycle(1, Request("a"), "thread"))]
    ensures NextThreads(lim, EMPTY, Request("a")) == [Entry("a", Remembered(1, "thread", None))]
  {
    RequestAppends(lim, EMPTY, "a");
  }

  lemma ThenUnnamed(lim: Bounds, s: State)
    requires lim.total == 2 && s.latestSeq == 1 && s.actionThreads == [Entry("a", Remembered(1, "thread", None))]
    ensures NextLifecycles(lim, s, Request("")) == s.actionLifecycles
    ensures NextThreads(lim, s, Request("")) == [Entry("a", Remembered(1, "thread", None)), Entry("", Remembered(2, "thread", None))]
  {
    RequestAppends(lim, s, "");
    FreshTouch(s.actionThreads, Entry("", Remembered(2, "thread", None)), 2);
  }

  lemma NamedThenUnnamed(lim: Bounds)
    requires lim.total == 2
    ensures var s := Run(lim, [Request("a")] + [Request("")]);
            && s.actionLifecycles == [Entry("a", Lifecycle(1, Request("a"), "thread"))]
            && s.actionThreads == [Entry("a", Remembered(1, "thread", None)), Entry("", Remembered(2, "thread", None))]
  {
    RunPush(lim, [], Request("a"));
    assert [] + [Request("a")] == [Request("a")];
    FirstNamed(lim);
    RunPush(lim, [Request("a")], Request(""));
    ThenUnnamed(lim, Run(lim, [Request("a")]));
  }

  lemma NamedPushesOut(lim: Bounds, s: State)
    requires lim.total == 2 && lim.actions >= 2
    requires s.actionLifecycles == [Entry("a", Lifecycle(1, Request("a"), "thread"))]
    requires s.actionThreads == [Entry("a", Remembered(1, "thread", None)), Entry("", Remembered(2, "thread", None))]
    ensures PushesOutRetained(lim, s, Request("b"))
  {
    RequestAppends(lim, s, "b");
    var all := s.actionLifecycles + [Entry("b", Lifecycle(s.latestSeq + 1, Request("b"), "thread"))];
    FreshTouch(s.actionLifecycles, all[1], lim.actions);
    assert all[0].key in Keys(all);
  }

  /** A request without an id may do its harm only at the next, named one. */
  lemma UnnamedBreaksLater(lim: Bounds)
    requires lim.total == 2 && lim.actions >= 2
    ensures Agrees(Run(lim, [Request("a")] + [Request("")]))
    ensures !Agrees(Run(lim, [Request("a")] + [Request("")] + [Request("b")]))
  {
    var events := [Request("a")] + [Request("")];
    NamedThenUnnamed(lim);
    var s := Run(lim, events);
    assert s.actionThreads[0] in s.actionThreads && SameRecord(s.actionLifecycles[0], s.actionThreads[0]);
    NamedPushesOut(lim, Run(lim, events));
    AppendBreaksAgreementIff(lim, events, Request("b"));
  }
}
